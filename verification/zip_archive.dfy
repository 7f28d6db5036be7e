/**
 * ZipArchive: a two-state wrapper (closed: null handle; open: non-null
 * handle) around the zip library.
 */
module Archive {
  import opened ZipCodec

  /** An entry call on handle `h`: the only kind of call `add` makes. */
  predicate IsEntryStep(e: Event, h: Handle)
  {
    match e.request
    case ZipEntryOpen(handle, _) => handle == h
    case ZipEntryFwrite(handle, _) => handle == h
    case ZipEntryClose(handle) => handle == h
    case _ => false
  }

  /**
   * The calls one `add(src, entryName)` makes, after history `log`: open the
   * entry, write the source file into it, close the entry, stopping at the
   * first call that does not return 0.
   */
  function AddSteps(answer: Oracle, log: seq<Event>, h: Handle, src: string, entryName: string): (steps: seq<Event>)
    ensures 1 <= |steps| <= 3
    ensures steps[0].request == ZipEntryOpen(h, entryName)
    ensures |steps| >= 2 ==> steps[1].request == ZipEntryFwrite(h, src)
    ensures |steps| == 3 ==> steps[2].request == ZipEntryClose(h)
    ensures forall i :: 0 <= i < |steps| - 1 ==> steps[i].result == 0
    ensures |steps| < 3 ==> steps[|steps| - 1].result != 0
    ensures forall e :: e in steps ==> IsEntryStep(e, h)
  {
    var open := Event(ZipEntryOpen(h, entryName), answer(log, ZipEntryOpen(h, entryName)));
    if open.result != 0 then [open]
    else
      var write := Event(ZipEntryFwrite(h, src), answer(log + [open], ZipEntryFwrite(h, src)));
      if write.result != 0 then [open, write]
      else [open, write, Event(ZipEntryClose(h), answer(log + [open, write], ZipEntryClose(h)))]
  }

  /** `add` reports success: all three calls were made and the last returned 0. */
  predicate AddSucceeded(steps: seq<Event>)
  {
    |steps| == 3 && steps[2].result == 0
  }

  class ZipArchive {
    const fileName: string
    const codec: Codec
    var zipHandler: Handle

    /** A new archive remembers its file name and starts closed. */
    constructor (fileName: string, codec: Codec)
      ensures this.fileName == fileName && this.codec == codec
      ensures zipHandler == Null
    {
      this.fileName := fileName;
      this.codec := codec;
      zipHandler := Null;
    }

    /** Opens the archive for writing; succeeds iff the library returned a non-null handle. */
    method Create() returns (ok: bool)
      modifies this, codec
      ensures zipHandler == codec.answer(old(codec.log), ZipOpen(fileName))
      ensures codec.log == old(codec.log) + [Event(ZipOpen(fileName), zipHandler)]
      ensures ok <==> zipHandler != Null
    {
      zipHandler := codec.Call(ZipOpen(fileName));
      ok := zipHandler != Null;
    }

    /** Adds the file `src` as entry `entryName`; any failing call ends the add with false. */
    method Add(src: string, entryName: string) returns (ok: bool)
      modifies codec
      ensures codec.log == old(codec.log) + AddSteps(codec.answer, old(codec.log), zipHandler, src, entryName)
      ensures ok <==> AddSucceeded(AddSteps(codec.answer, old(codec.log), zipHandler, src, entryName))
    {
      ok := false;
      ghost var before := codec.log;
      var rc := codec.Call(ZipEntryOpen(zipHandler, entryName));
      if rc == 0 {
        ghost var open := Event(ZipEntryOpen(zipHandler, entryName), rc);
        rc := codec.Call(ZipEntryFwrite(zipHandler, src));
        if rc == 0 {
          ghost var write := Event(ZipEntryFwrite(zipHandler, src), rc);
          assert codec.log == before + [open, write];
          rc := codec.Call(ZipEntryClose(zipHandler));
          ok := rc == 0;
        }
      }
    }

    /** Closes an open archive once and forgets its handle; on a closed archive it does nothing. */
    method Close()
      modifies this, codec
      ensures zipHandler == Null
      ensures old(zipHandler) == Null ==> codec.log == old(codec.log)
      ensures old(zipHandler) != Null ==>
        codec.log == old(codec.log) + [Event(ZipClose(old(zipHandler)), codec.answer(old(codec.log), ZipClose(old(zipHandler))))]
    {
      if zipHandler != Null {
        var _ := codec.Call(ZipClose(zipHandler));
        zipHandler := Null;
      }
    }

    /** The destructor: always closes, so it is a no-op after an explicit Close. */
    method Destroy()
      modifies this, codec
      ensures zipHandler == Null
      ensures old(zipHandler) == Null ==> codec.log == old(codec.log)
      ensures old(zipHandler) != Null ==>
        codec.log == old(codec.log) + [Event(ZipClose(old(zipHandler)), codec.answer(old(codec.log), ZipClose(old(zipHandler))))]
    {
      Close();
    }
  }
}
