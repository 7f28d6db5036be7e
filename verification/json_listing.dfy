/**
 * The JSON text of the MRU listing: "[\n", the records of the files
 * attempted, the last two characters trimmed when there is more than the
 * opening, then "\n]\n".
 */
module JsonListing {
  import opened Wrappers
  import opened TimeOrdered

  /**
   * FilenameMap::jsonStat(filePath, fileName, id, beginl, endl): the record of
   * one file, or nothing when the file cannot be examined. Its formatting is
   * not modelled.
   */
  type JsonStat = (string, string, string, string, string) -> Option<string>

  /** The separators the listing passes to jsonStat. */
  const ListBegin: string := "  "
  const ListEnd: string := ",\n"

  /** jsonStat of one listed file, called as the listing calls it. */
  function StatOf(e: TimedPath, jsonStat: JsonStat, hashCode: string -> string): Option<string>
  {
    jsonStat(e.path.ToString(), e.path.name, hashCode(e.path.name), ListBegin, ListEnd)
  }

  /** The text a record adds to the listing: nothing when jsonStat fails. */
  function RecordText(stat: Option<string>): string
  {
    if stat.Some? then stat.value else ""
  }

  /** The records of `entries`, in order, skipping each entry whose jsonStat fails. */
  function Records(entries: TimeOrderedFileList, jsonStat: JsonStat, hashCode: string -> string): (r: seq<string>)
    ensures |r| <= |entries|
  {
    if entries == [] then []
    else
      var e := entries[|entries| - 1];
      var prior := Records(entries[..|entries| - 1], jsonStat, hashCode);
      match StatOf(e, jsonStat, hashCode)
      case Some(record) => prior + [record]
      case None => prior
  }

  /** One more step of the reverse iteration adds the next entry's record, if it has one. */
  lemma RecordsStep(l: TimeOrderedFileList, c: int, jsonStat: JsonStat, hashCode: string -> string)
    requires 0 <= c < |l|
    ensures var e := l[|l| - 1 - c];
      Concat(Records(MostRecent(l, c + 1), jsonStat, hashCode))
      == Concat(Records(MostRecent(l, c), jsonStat, hashCode))
         + RecordText(StatOf(e, jsonStat, hashCode))
  {
    var attempted := MostRecent(l, c + 1);
    MostRecentStep(l, c);
    assert attempted[..|attempted| - 1] == MostRecent(l, c);
    var prior := Records(MostRecent(l, c), jsonStat, hashCode);
    var all := Records(attempted, jsonStat, hashCode);
    if all != prior {
      assert Concat(all) == Concat(all[..|all| - 1]) + all[|all| - 1];
      assert all[..|all| - 1] == prior;
    }
  }

  /** RecordsStep for a text that already holds the first `c` records after some `prefix`. */
  lemma AppendRecordStep(text: string, prefix: string, l: TimeOrderedFileList, c: int,
                         jsonStat: JsonStat, hashCode: string -> string)
    requires 0 <= c < |l|
    requires text == prefix + Concat(Records(MostRecent(l, c), jsonStat, hashCode))
    ensures text + RecordText(StatOf(l[|l| - 1 - c], jsonStat, hashCode))
      == prefix + Concat(Records(MostRecent(l, c + 1), jsonStat, hashCode))
  {
    var next := RecordText(StatOf(l[|l| - 1 - c], jsonStat, hashCode));
    RecordsStep(l, c, jsonStat, hashCode);
    assert text + next == prefix + (Concat(Records(MostRecent(l, c), jsonStat, hashCode)) + next);
  }

  /** All records when every jsonStat succeeds: one record per entry. */
  lemma {:induction false} RecordsAllSucceed(entries: TimeOrderedFileList, jsonStat: JsonStat, hashCode: string -> string)
    requires forall e :: e in entries ==> jsonStat(e.path.ToString(), e.path.name, hashCode(e.path.name), ListBegin, ListEnd).Some?
    ensures |Records(entries, jsonStat, hashCode)| == |entries|
  {
    if entries != [] {
      RecordsAllSucceed(entries[..|entries| - 1], jsonStat, hashCode);
    }
  }

  function Concat(texts: seq<string>): string
  {
    if texts == [] then "" else Concat(texts[..|texts| - 1]) + texts[|texts| - 1]
  }

  /** The texts separated by `sep`, with no separator after the last one. */
  function JoinWith(texts: seq<string>, sep: string): string
  {
    if texts == [] then ""
    else if |texts| == 1 then texts[0]
    else JoinWith(texts[..|texts| - 1], sep) + sep + texts[|texts| - 1]
  }

  /** Drops the last two characters of a text longer than two, then closes the array. */
  function CloseArray(text: string): string
  {
    (if |text| > 2 then text[..|text| - 2] else text) + "\n]\n"
  }

  /** The listing assembled from the records that were produced. */
  function JsonArray(records: seq<string>): string
  {
    CloseArray("[\n" + Concat(records))
  }

  /**
   * The listing always opens with "[\n" and closes with "\n]\n"; with no
   * record (or only empty ones) it is exactly "[\n\n]\n".
   */
  lemma JsonArrayShape(records: seq<string>)
    ensures |JsonArray(records)| >= 4
    ensures JsonArray(records)[..2] == "[\n"
    ensures JsonArray(records)[|JsonArray(records)| - 3..] == "\n]\n"
    ensures Concat(records) == "" ==> JsonArray(records) == "[\n\n]\n"
  {
    var body := Concat(records);
    var text := "[\n" + body;
    var r := JsonArray(records);
    if |body| == 0 {
      assert r == "[\n" + "\n]\n";
    } else if |body| == 1 {
      assert text[..|text| - 2] == "[";
      assert r == "[" + "\n]\n";
    } else {
      assert text[..|text| - 2] == "[\n" + body[..|body| - 2];
      assert r == "[\n" + body[..|body| - 2] + "\n]\n";
    }
  }

  lemma {:induction false} ConcatOfTerminated(records: seq<string>, bodies: seq<string>, sep: string)
    requires |records| == |bodies| > 0
    requires forall i :: 0 <= i < |records| ==> records[i] == bodies[i] + sep
    ensures Concat(records) == JoinWith(bodies, sep) + sep
  {
    var n := |records|;
    if n == 1 {
      assert Concat(records) == Concat([]) + records[0];
    } else {
      ConcatOfTerminated(records[..n - 1], bodies[..n - 1], sep);
      assert bodies[..n - 1][..] == bodies[..n - 1];
    }
  }

  /**
   * When every record ends with the separator the listing asks for (",\n"),
   * the trim removes exactly the last record's separator: the result is the
   * records joined by ",\n" inside the brackets.
   */
  lemma JsonArrayTrimsLastSeparator(records: seq<string>, bodies: seq<string>)
    requires |records| == |bodies|
    requires forall i :: 0 <= i < |records| ==> records[i] == bodies[i] + ListEnd
    ensures JsonArray(records) == "[\n" + JoinWith(bodies, ListEnd) + "\n]\n"
  {
    if records == [] {
      assert JsonArray(records) == "[\n" + "\n]\n";
    } else {
      ConcatOfTerminated(records, bodies, ListEnd);
      var text := "[\n" + Concat(records);
      assert text == "[\n" + JoinWith(bodies, ListEnd) + ListEnd;
      assert text[..|text| - 2] == "[\n" + JoinWith(bodies, ListEnd);
    }
  }
}
