/** The `time,length` records the drivers append to a result file, and how
    the statistics programs read them back. */
module Records {
  import opened Wrappers
  import opened JavaStrings

  /** One run's result: elapsed milliseconds and solution length, as the
      text `Double.toString` printed for them. */
  datatype Record = Record(time: string, length: string)

  /** A printed number as it can stand in a record: not empty, with no
      comma and no line break. */
  predicate IsField(s: string) {
    |s| > 0 && ',' !in s && '\n' !in s && '\r' !in s
  }

  predicate IsWritable(r: Record) {
    IsField(r.time) && IsField(r.length)
  }

  /** `time + "," + length + "\n"`: read back, it is the single line
      holding the two fields. */
  function RecordLine(r: Record): (line: string)
    ensures IsWritable(r) ==> Lines(line) == [r.time + "," + r.length]
  {
    var text := r.time + "," + r.length;
    assert IsWritable(r) ==> Lines(text + "\n") == [text] by {
      if IsWritable(r) {
        LinesCons(text, []);
        assert text + "\n" + [] == text + "\n";
      }
    }
    text + "\n"
  }

  /** A record line holds exactly one comma, the one between its fields. */
  lemma RecordLineHasOneComma(r: Record)
    requires ',' !in r.time && ',' !in r.length
    ensures multiset(RecordLine(r))[','] == 1
  {
    assert RecordLine(r) == r.time + [','] + r.length + ['\n'];
  }

  /** One line of a result file: an empty line is skipped; any other is
      split on commas and fields 0 and 1 become the record, which throws
      when fewer than two fields come out. The fields stay text: the
      `Double.parseDouble` of each is not part of this model. */
  function ParseLine(line: string): (r: Result<Option<Record>, JavaError>)
    ensures line == [] <==> r == Success(None)
    ensures r.Failure? <==> line != [] && |Split(line, ',')| < 2
    ensures r.Failure? ==> r.error == IndexOutOfBounds
    ensures r.Success? && r.value.Some? ==>
              r.value.value == Record(Pieces(line, ',')[0], Pieces(line, ',')[1])
    ensures r.Success? && r.value.Some? ==>
              && ',' !in r.value.value.time
              && ',' !in r.value.value.length
              && r.value.value.time + "," + r.value.value.length <= line
  {
    if |line| == 0 then Success(None)
    else
      var split := Split(line, ',');
      if |split| < 2 then Failure(IndexOutOfBounds)
      else
        assert split[0] == Pieces(line, ',')[0] && split[1] == Pieces(line, ',')[1];
        FirstTwoPiecesArePrefix(line, ',');
        Success(Some(Record(split[0], split[1])))
  }

  /** The lines of a file in order, skipping empty ones, stopping at the
      first line that throws. */
  function ParseLines(lines: seq<string>): (r: Result<seq<Record>, JavaError>)
    ensures r.Failure? ==> r.error == IndexOutOfBounds
    ensures r.Success? ==> |r.value| <= |lines|
  {
    if |lines| == 0 then Success([])
    else
      var first :- ParseLine(lines[0]);
      var rest :- ParseLines(lines[1..]);
      Success(if first.Some? then [first.value] + rest else rest)
  }

  /** The records of a result file's content (`Files.lines` then the loop). */
  function ReadRecords(content: string): Result<seq<Record>, JavaError> {
    ParseLines(Lines(content))
  }

  /** The content of a result file that started empty after one record
      line was appended per run. */
  function WriteRecords(rs: seq<Record>): string {
    if |rs| == 0 then [] else RecordLine(rs[0]) + WriteRecords(rs[1..])
  }

  /** A written line splits back into the two fields it was made of. */
  lemma ParseRecordLine(r: Record)
    requires IsWritable(r)
    ensures ParseLine(r.time + "," + r.length) == Success(Some(r))
  {
    var line := r.time + "," + r.length;
    assert line == r.time + [','] + r.length;
    PiecesCons(r.time, ',', r.length);
    PiecesOfSeparatorFree(r.length, ',');
    SplitKeepsAllPieces(line, ',');
  }

  /** Reading a file written record by record gives the records back, in
      the order they were written. */
  lemma {:induction false} ReadWrittenRecords(rs: seq<Record>)
    requires forall i :: 0 <= i < |rs| ==> IsWritable(rs[i])
    ensures ReadRecords(WriteRecords(rs)) == Success(rs)
    decreases |rs|
  {
    if |rs| > 0 {
      var r := rs[0];
      var line := r.time + "," + r.length;
      assert WriteRecords(rs) == line + "\n" + WriteRecords(rs[1..]);
      LinesCons(line, WriteRecords(rs[1..]));
      ParseRecordLine(r);
      ReadWrittenRecords(rs[1..]);
      var ls := Lines(WriteRecords(rs));
      assert ls[0] == line && ls[1..] == Lines(WriteRecords(rs[1..]));
      assert [r] + rs[1..] == rs;
    }
  }

  /** Writing one more record first puts its line first. */
  lemma WriteRecordsCons(r: Record, rs: seq<Record>)
    ensures WriteRecords([r] + rs) == RecordLine(r) + WriteRecords(rs)
  {
    assert ([r] + rs)[1..] == rs;
  }
}
