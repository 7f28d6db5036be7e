/**
 * The library calls a packaging operation makes once its archive exists:
 * open the archive, add files one by one until an add fails, and close the
 * handle (explicitly on success, by the destructor otherwise).
 */
module Packaging {
  import opened ZipCodec
  import opened Archive
  import opened FsPath

  /** The calls of a run of adds and whether all of them succeeded. */
  datatype Session = Session(events: seq<Event>, ok: bool)

  /**
   * Adding each name of `names`, read from `dir`, as an entry of the archive
   * with handle `h`, stopping after the first add that fails.
   */
  function AddEach(answer: Oracle, log: seq<Event>, h: Handle, dir: string, names: seq<string>): (s: Session)
    ensures forall e :: e in s.events ==> IsEntryStep(e, h)
    ensures s.ok ==> |s.events| == 3 * |names|
    ensures s.ok ==> forall e :: e in s.events ==> e.result == 0
  {
    if names == [] then Session([], true)
    else
      var prior := AddEach(answer, log, h, dir, names[..|names| - 1]);
      if !prior.ok then prior
      else
        var name := names[|names| - 1];
        var steps := AddSteps(answer, log + prior.events, h, Join(dir, name), name);
        Session(prior.events + steps, AddSucceeded(steps))
  }

  /** Once an add has failed, later names add no call and the run stays failed. */
  lemma {:induction false} AddEachStopsAtFailure(answer: Oracle, log: seq<Event>, h: Handle, dir: string, names: seq<string>, k: nat)
    requires k <= |names|
    requires !AddEach(answer, log, h, dir, names[..k]).ok
    ensures AddEach(answer, log, h, dir, names) == AddEach(answer, log, h, dir, names[..k])
  {
    if k < |names| {
      var shorter := names[..|names| - 1];
      assert shorter[..k] == names[..k];
      AddEachStopsAtFailure(answer, log, h, dir, shorter, k);
    } else {
      assert names[..k] == names;
    }
  }

  /** One more add after a run of successful ones. */
  lemma AddEachStep(answer: Oracle, log: seq<Event>, h: Handle, dir: string, names: seq<string>, i: nat)
    requires i < |names|
    requires AddEach(answer, log, h, dir, names[..i]).ok
    ensures var prior := AddEach(answer, log, h, dir, names[..i]);
      var steps := AddSteps(answer, log + prior.events, h, Join(dir, names[i]), names[i]);
      AddEach(answer, log, h, dir, names[..i + 1]) == Session(prior.events + steps, AddSucceeded(steps))
  {
    assert names[..i + 1][..i] == names[..i];
  }

  /**
   * AddEachStep seen from the log: when the log holds the first `i` adds,
   * the next add's calls extend it to the first `i + 1`, and a failing add
   * ends the whole run.
   */
  lemma AddEachLogStep(answer: Oracle, log: seq<Event>, h: Handle, dir: string, names: seq<string>, i: nat,
                       before: seq<Event>)
    requires i < |names|
    requires AddEach(answer, log, h, dir, names[..i]).ok
    requires before == log + AddEach(answer, log, h, dir, names[..i]).events
    ensures var steps := AddSteps(answer, before, h, Join(dir, names[i]), names[i]);
      before + steps == log + AddEach(answer, log, h, dir, names[..i + 1]).events
      && AddEach(answer, log, h, dir, names[..i + 1]).ok == AddSucceeded(steps)
      && (!AddSucceeded(steps) ==> AddEach(answer, log, h, dir, names) == AddEach(answer, log, h, dir, names[..i + 1]))
  {
    var prior := AddEach(answer, log, h, dir, names[..i]);
    var steps := AddSteps(answer, before, h, Join(dir, names[i]), names[i]);
    AddEachStep(answer, log, h, dir, names, i);
    assert before + steps == log + (prior.events + steps);
    if !AddSucceeded(steps) {
      AddEachStopsAtFailure(answer, log, h, dir, names, i + 1);
    }
  }

  /**
   * The calls made on the archive `zipPath` from `create` to the destructor:
   * the open; then, if the handle is not null, the adds and exactly one close.
   */
  function ArchiveSession(answer: Oracle, log: seq<Event>, zipPath: string, dir: string, names: seq<string>): (s: Session)
    ensures |s.events| >= 1 && s.events[0] == Event(ZipOpen(zipPath), answer(log, ZipOpen(zipPath)))
    ensures s.events[0].result == Null ==> |s.events| == 1 && !s.ok
    ensures s.events[0].result != Null ==>
      |s.events| >= 2 && s.events[|s.events| - 1].request == ZipClose(s.events[0].result)
    ensures forall i :: 0 < i < |s.events| - 1 ==> IsEntryStep(s.events[i], s.events[0].result)
    ensures s.ok ==> |s.events| == 3 * |names| + 2
  {
    var h := answer(log, ZipOpen(zipPath));
    var openEvent := Event(ZipOpen(zipPath), h);
    if h == Null then Session([openEvent], false)
    else
      var adds := AddEach(answer, log + [openEvent], h, dir, names);
      var closed := Event(ZipClose(h), answer(log + [openEvent] + adds.events, ZipClose(h)));
      var events := [openEvent] + adds.events + [closed];
      assert forall i :: 0 < i < |events| - 1 ==> events[i] == adds.events[i - 1];
      Session(events, adds.ok)
  }

  lemma ArchiveSessionNotOpened(answer: Oracle, log: seq<Event>, zipPath: string, dir: string, names: seq<string>)
    requires answer(log, ZipOpen(zipPath)) == Null
    ensures ArchiveSession(answer, log, zipPath, dir, names) == Session([Event(ZipOpen(zipPath), Null)], false)
  {
  }

  lemma ArchiveSessionOpened(answer: Oracle, log: seq<Event>, zipPath: string, dir: string, names: seq<string>)
    requires answer(log, ZipOpen(zipPath)) != Null
    ensures var h := answer(log, ZipOpen(zipPath));
      var openEvent := Event(ZipOpen(zipPath), h);
      var adds := AddEach(answer, log + [openEvent], h, dir, names);
      ArchiveSession(answer, log, zipPath, dir, names)
      == Session([openEvent] + adds.events + [Event(ZipClose(h), answer(log + [openEvent] + adds.events, ZipClose(h)))], adds.ok)
  {
  }

  /** Regrouping a log around a session. */
  lemma LogRegroup(log: seq<Event>, first: Event, middle: seq<Event>, last: Event)
    ensures log + [first] + middle + [last] == log + ([first] + middle + [last])
  {
  }
}
