/**
 * The zip compression library as the core sees it: a handle returned by
 * `zip_open` (null on failure) and integer return codes from the entry
 * calls. Its internals are not modelled; every answer comes from an oracle
 * that may depend on the whole history of calls, and every call is logged
 * with its answer so that the order of calls can be specified.
 */
module ZipCodec {

  /** A `struct zip_t*`; 0 is the null pointer. */
  type Handle = int

  const Null: Handle := 0

  datatype Request =
    | ZipOpen(path: string)                           // zip_open(path, level, 'w')
    | ZipEntryOpen(handle: Handle, entryName: string) // zip_entry_open
    | ZipEntryFwrite(handle: Handle, src: string)     // zip_entry_fwrite
    | ZipEntryClose(handle: Handle)                   // zip_entry_close
    | ZipClose(handle: Handle)                        // zip_close

  /** A call and what the library answered (the handle for Open, a return code otherwise). */
  datatype Event = Event(request: Request, result: int)

  type Oracle = (seq<Event>, Request) -> int

  class Codec {
    const answer: Oracle
    var log: seq<Event>

    constructor (answer: Oracle)
      ensures this.answer == answer && log == []
    {
      this.answer := answer;
      log := [];
    }

    /** Performs one library call: the answer is the oracle's for this history. */
    method Call(request: Request) returns (result: int)
      modifies this
      ensures result == answer(old(log), request)
      ensures log == old(log) + [Event(request, result)]
    {
      result := answer(log, request);
      log := log + [Event(request, result)];
    }
  }
}
