/** The line level of an LCOV report: records of tagged lines, each closed by a line of its own. */
module LcovText {
  import opened Common
  import opened Text

  const END := "end_of_record"
  const ALLOWED_TAGS := {"TN", "SF", "FN", "FNDA", "DA", "BRDA", "LF", "LH", "FNF", "FNH", "BRF", "BRH"}

  type Record = seq<string>

  /** replaceAll("\r\n", "\n"). */
  function Unix(s: string): (r: string)
    ensures |r| <= |s|
  {
    if s == [] then []
    else if |s| >= 2 && s[0] == '\r' && s[1] == '\n' then ['\n'] + Unix(s[2..])
    else [s[0]] + Unix(s[1..])
  }

  /** The text before the first colon, or nothing when there is no colon. */
  function Tag(line: string): string {
    var fields := Split(line, ':');
    if |fields| == 1 then [] else fields[0]
  }

  predicate Tagged(line: string) {
    Tag(line) in ALLOWED_TAGS
  }

  /** The records of the remaining lines, when a record has already collected some. */
  function RecordsFrom(lines: seq<string>, current: Record): Option<seq<Record>> {
    if lines == [] then (if current == [] then Some([]) else None)
    else if lines[0] == END then
      if current == [] then None
      else
        match RecordsFrom(lines[1..], [])
        case None => None
        case Some(rest) => Some([current] + rest)
    else if lines[0] == [] then (if |lines| == 1 && current == [] then Some([]) else None)
    else if !Tagged(lines[0]) then None
    else RecordsFrom(lines[1..], current + [lines[0]])
  }

  /** lcovRecords on a whole text. */
  function Records(raw: string): Option<seq<Record>> {
    RecordsFrom(Split(Unix(raw), '\n'), [])
  }

  function Prepend(records: seq<Record>, rest: Option<seq<Record>>): Option<seq<Record>> {
    if rest.Some? then Some(records + rest.value) else None
  }

  method LcovRecords(raw: string) returns (r: Option<seq<Record>>)
    ensures r == Records(raw)
  {
    hide Tagged;
    var records: seq<Record>, currentLines: Record := [], [];
    var lines := Split(Unix(raw), '\n');
    var index := 0;
    assert lines[0..] == lines;
    assert Records(raw).Some? ==> [] + Records(raw).value == Records(raw).value;
    while index < |lines|
      invariant index <= |lines|
      invariant Records(raw) == Prepend(records, RecordsFrom(lines[index..], currentLines))
    {
      var line := lines[index];
      assert lines[index..][0] == line && lines[index..][1..] == lines[index + 1..];
      index := index + 1;
      if line == END {
        if currentLines == [] { return None; }
        var rest := RecordsFrom(lines[index..], []);
        assert rest.Some? ==> records + ([currentLines] + rest.value) == (records + [currentLines]) + rest.value;
        records, currentLines := records + [currentLines], [];
      } else if line == [] {
        if index == |lines| && currentLines == [] {
          assert RecordsFrom(lines[index..], []) == Some([]);
        } else {
          return None;
        }
      } else if !Tagged(line) {
        return None;
      } else {
        currentLines := currentLines + [line];
      }
    }
    if currentLines != [] { return None; }
    assert records + [] == records;
    r := Some(records);
  }

  // ------------------------------------------------------------ printing

  function Flat(records: seq<Record>): seq<string> {
    if records == [] then [] else records[0] + (["end_of_record"] + Flat(records[1..]))
  }

  function Terminated(lines: seq<string>, eol: string): string {
    if lines == [] then [] else lines[0] + (eol + Terminated(lines[1..], eol))
  }

  function Print(records: seq<Record>, eol: string): string {
    Terminated(Flat(records), eol)
  }

  ghost predicate ValidRecord(record: Record) {
    record != [] && forall line :: line in record ==> Tagged(line) && '\n' !in line
  }

  ghost predicate ValidRecords(records: seq<Record>) {
    forall record :: record in records ==> ValidRecord(record)
  }

  lemma NoColonNoTag(line: string)
    requires ':' !in line
    ensures !Tagged(line)
  {
    SplitPrefix(line, [], ':');
    assert line + [] == line;
    assert Split(line, ':') == [line + []] + [];
    assert |Split(line, ':')| == 1;
  }

  lemma TaggedIsPlain(line: string)
    requires Tagged(line)
    ensures line != END && line != []
  {
    hide Tagged;
    if ':' !in line { NoColonNoTag(line); }
    assert ':' !in END;
  }

  lemma {:induction false} TerminatedIsJoin(lines: seq<string>)
    ensures Terminated(lines, "\n") == Join(lines + [[]], '\n')
  {
    if lines != [] {
      TerminatedIsJoin(lines[1..]);
      assert (lines + [[]])[1..] == lines[1..] + [[]];
    }
  }

  lemma {:induction false} FlatPlain(records: seq<Record>)
    requires ValidRecords(records)
    ensures Separated(Flat(records), '\n')
  {
    if records != [] {
      FlatPlain(records[1..]);
      assert '\n' !in END;
      assert records[0] in records;
    }
  }

  /** Tagged lines are collected into the current record. */
  lemma {:induction false} TaggedAreCollected(front: Record, rest: seq<string>, current: Record)
    requires forall line :: line in front ==> Tagged(line)
    ensures RecordsFrom(front + rest, current) == RecordsFrom(rest, current + front)
  {
    hide Tagged;
    if front == [] {
      assert front + rest == rest && current + front == current;
    } else {
      var line := front[0];
      TaggedIsPlain(line);
      TaggedAreCollected(front[1..], rest, current + [line]);
      assert (front + rest)[1..] == front[1..] + rest;
      assert (current + [line]) + front[1..] == current + front;
    }
  }

  /** Reading the lines that were printed, with or without the empty part after the last newline. */
  lemma {:induction false} FlatIsRead(records: seq<Record>, tail: seq<string>)
    requires ValidRecords(records) && (tail == [] || tail == [[]])
    ensures RecordsFrom(Flat(records) + tail, []) == Some(records)
  {
    hide Tagged;
    if records == [] {
      assert Flat(records) + tail == tail;
    } else {
      FlatIsRead(records[1..], tail);
      assert ValidRecord(records[0]);
      assert Flat(records) + tail == records[0] + ([END] + (Flat(records[1..]) + tail));
      RecordIsRead(records[0], Flat(records[1..]) + tail);
      assert [records[0]] + records[1..] == records;
    }
  }

  lemma RecordIsRead(record: Record, rest: seq<string>)
    requires ValidRecord(record)
    ensures RecordsFrom(record + ([END] + rest), []) == Prepend([record], RecordsFrom(rest, []))
  {
    hide Tagged;
    TaggedAreCollected(record, [END] + rest, []);
    assert [] + record == record && ([END] + rest)[1..] == rest;
  }

  /** Whatever was accepted is exactly the printed form of what was read. */
  lemma {:induction false} AcceptedIsPrinted(lines: seq<string>, current: Record, records: seq<Record>)
    requires RecordsFrom(lines, current) == Some(records) && Separated(lines, '\n')
    requires forall line :: line in current ==> Tagged(line) && '\n' !in line
    ensures ValidRecords(records)
    ensures current + lines == Flat(records) || current + lines == Flat(records) + [[]]
    decreases |lines|
  {
    hide Tagged;
    if lines != [] {
      var line, rest := lines[0], lines[1..];
      assert line in lines && lines == [line] + rest;
      assert Separated(rest, '\n');
      if line == END {
        AcceptedIsPrinted(rest, [], records[1..]);
        assert [] + rest == rest;
        RecordClosed(rest, current, records);
      } else if line != [] {
        AcceptedIsPrinted(rest, current + [line], records);
        assert current + [line] + rest == current + lines;
      } else {
        assert records == [] && current + lines == [[]];
      }
    }
  }

  lemma RecordClosed(rest: seq<string>, current: Record, records: seq<Record>)
    requires records != [] && records[0] == current && ValidRecord(current) && ValidRecords(records[1..])
    requires rest == Flat(records[1..]) || rest == Flat(records[1..]) + [[]]
    ensures ValidRecords(records)
    ensures current + ([END] + rest) == Flat(records) || current + ([END] + rest) == Flat(records) + [[]]
  {
    hide ValidRecord;
    assert forall record :: record in records ==> record == current || record in records[1..];
    var flat := Flat(records[1..]);
    assert (current + ([END] + flat)) + [[]] == current + ([END] + (flat + [[]]));
  }

  /** Splitting undoes printing and only that: a text with unix line ends is read as records exactly when
      it is their printed form, up to the newline after the last line. */
  lemma UnixTextRoundTrip(text: string, records: seq<Record>)
    ensures RecordsFrom(Split(text, '\n'), []) == Some(records) <==>
              ValidRecords(records) &&
              (text == Print(records, "\n") || (records != [] && text + "\n" == Print(records, "\n")))
  {
    var lines, flat := Split(text, '\n'), Flat(records);
    JoinSplit(text, '\n');
    TerminatedIsJoin(flat);
    if flat != [] { JoinSnoc(flat); }
    if RecordsFrom(lines, []) == Some(records) {
      AcceptedIsPrinted(lines, [], records);
      assert [] + lines == lines;
    } else if ValidRecords(records) && text == Print(records, "\n") {
      FlatPlain(records);
      SplitJoin(flat + [[]], '\n');
      FlatIsRead(records, [[]]);
    } else if ValidRecords(records) && records != [] && text + "\n" == Print(records, "\n") {
      FlatPlain(records);
      assert (Join(flat, '\n') + "\n")[..|text|] == text == Join(flat, '\n');
      SplitJoin(flat, '\n');
      assert flat + [] == flat;
      FlatIsRead(records, []);
    }
  }

  lemma {:induction false} JoinSnoc(lines: seq<string>)
    requires lines != []
    ensures Join(lines + [[]], '\n') == Join(lines, '\n') + "\n"
  {
    if |lines| == 1 {
      assert (lines + [[]])[1..] == [[]];
      assert lines[0] + ['\n'] + [] == lines[0] + "\n";
    } else {
      JoinSnoc(lines[1..]);
      assert (lines + [[]])[1..] == lines[1..] + [[]];
      assert lines[0] + ['\n'] + (Join(lines[1..], '\n') + "\n") == (lines[0] + ['\n'] + Join(lines[1..], '\n')) + "\n";
    }
  }

  // ------------------------------------------------------------ carriage returns

  /** A line without the carriage return at its end, if it has one. */
  function Chomp(line: string): string {
    if line != [] && line[|line| - 1] == '\r' then line[..|line| - 1] else line
  }

  function ChompAll(lines: seq<string>): (r: seq<string>)
    ensures |r| == |lines| && forall i :: 0 <= i < |r| ==> r[i] == Chomp(lines[i])
  {
    seq(|lines|, i requires 0 <= i < |lines| => Chomp(lines[i]))
  }

  function ChompRecords(records: seq<Record>): (r: seq<Record>)
    ensures |r| == |records| && forall i :: 0 <= i < |r| ==> r[i] == ChompAll(records[i])
  {
    seq(|records|, i requires 0 <= i < |records| => ChompAll(records[i]))
  }

  lemma UnixCons(c: char, rest: string)
    requires rest == [] || rest[0] != '\n' || c != '\r'
    ensures Unix([c] + rest) == [c] + Unix(rest)
  {
    assert ([c] + rest)[1..] == rest;
  }

  lemma UnixLineEnd(rest: string)
    ensures Unix("\n" + rest) == "\n" + Unix(rest) && Unix("\r\n" + rest) == "\n" + Unix(rest)
  {
    assert ("\r\n" + rest)[2..] == rest && ("\n" + rest)[1..] == rest;
  }

  /** Characters before the line end stay, unless a carriage return comes to stand before a newline. */
  lemma {:induction false} UnixAppend(p: string, tail: string)
    requires '\n' !in p
    requires tail == [] || tail[0] != '\n' || Chomp(p) == p
    ensures Unix(p + tail) == p + Unix(tail)
  {
    hide Unix;
    if p == [] {
      assert p + tail == tail && p + Unix(tail) == Unix(tail);
    } else {
      var q := p[1..];
      assert p == [p[0]] + q;
      UnixAppend(q, tail);
      UnixCons(p[0], q + tail);
      assert p + tail == [p[0]] + (q + tail);
      assert [p[0]] + (q + Unix(tail)) == p + Unix(tail);
    }
  }

  lemma UnixLine(p: string, rest: string)
    requires '\n' !in p
    ensures Unix(p + ("\r\n" + rest)) == p + ("\n" + Unix(rest))
    ensures Unix(p + ("\n" + rest)) == Chomp(p) + ("\n" + Unix(rest))
  {
    hide Unix;
    UnixLineEnd(rest);
    UnixAppend(p, "\r\n" + rest);
    if Chomp(p) == p {
      UnixAppend(p, "\n" + rest);
    } else {
      var q := Chomp(p);
      UnixAppend(q, "\r\n" + rest);
      assert p + ("\n" + rest) == q + ("\r\n" + rest);
    }
  }

  lemma {:induction false} UnixTerminated(lines: seq<string>)
    requires Separated(lines, '\n')
    ensures Unix(Terminated(lines, "\r\n")) == Terminated(lines, "\n")
    ensures Unix(Terminated(lines, "\n")) == Terminated(ChompAll(lines), "\n")
  {
    if lines != [] {
      assert lines[0] in lines;
      UnixTerminated(lines[1..]);
      UnixLine(lines[0], Terminated(lines[1..], "\r\n"));
      UnixLine(lines[0], Terminated(lines[1..], "\n"));
      assert ChompAll(lines)[1..] == ChompAll(lines[1..]);
    }
  }

  lemma {:induction false} FlatChomped(records: seq<Record>)
    ensures ChompAll(Flat(records)) == Flat(ChompRecords(records))
  {
    if records != [] {
      FlatChomped(records[1..]);
      assert ChompRecords(records)[1..] == ChompRecords(records[1..]);
      ChompConcat(records[0], [END] + Flat(records[1..]));
      ChompConcat([END], Flat(records[1..]));
      assert Chomp(END) == END && ChompAll([END]) == [END];
    }
  }

  lemma ChompConcat(a: seq<string>, b: seq<string>)
    ensures ChompAll(a + b) == ChompAll(a) + ChompAll(b)
  {
    hide Chomp;
  }

  lemma ChompKeepsTag(line: string)
    requires Tagged(line) && '\n' !in line
    ensures Tagged(Chomp(line)) && '\n' !in Chomp(line)
  {
    if Chomp(line) != line {
      var q := Chomp(line);
      assert line == q + ['\r'];
      JoinSplit(q, ':');
      SplitSnoc(q, '\r', ':');
    }
  }

  lemma {:induction false} SplitSnoc(s: string, c: char, sep: char)
    requires c != sep
    ensures |Split(s + [c], sep)| == |Split(s, sep)|
    ensures |Split(s, sep)| > 1 ==> Split(s + [c], sep)[0] == Split(s, sep)[0]
  {
    if s == [] {
      assert [] + [c] == [c] && [c][1..] == [];
    } else {
      assert (s + [c])[1..] == s[1..] + [c];
      SplitSnoc(s[1..], c, sep);
    }
  }

  /** Printing valid records and reading them again gives the same records under windows line ends, always;
      and under unix line ends exactly when no line ends in a carriage return. */
  lemma PrintedIsRead(records: seq<Record>)
    requires ValidRecords(records)
    ensures Records(Print(records, "\r\n")) == Some(records)
    ensures Records(Print(records, "\n")) == Some(ChompRecords(records))
    ensures Records(Print(records, "\n")) == Some(records) <==>
              forall i, j :: 0 <= i < |records| && 0 <= j < |records[i]| ==> Chomp(records[i][j]) == records[i][j]
  {
    hide RecordsFrom, Terminated, Flat, ValidRecord, Chomp;
    FlatPlain(records);
    UnixTerminated(Flat(records));
    UnixTextRoundTrip(Print(records, "\n"), records);
    FlatChomped(records);
    ChompedValid(records);
    UnixTextRoundTrip(Print(ChompRecords(records), "\n"), ChompRecords(records));
    ChompedSame(records);
  }

  lemma ChompedValid(records: seq<Record>)
    requires ValidRecords(records)
    ensures ValidRecords(ChompRecords(records))
  {
    hide Tagged, Chomp;
    forall record | record in ChompRecords(records) ensures ValidRecord(record) {
      var i :| 0 <= i < |records| && record == ChompAll(records[i]);
      assert ValidRecord(records[i]);
      forall line | line in record ensures Tagged(line) && '\n' !in line {
        var j :| 0 <= j < |records[i]| && line == Chomp(records[i][j]);
        assert records[i][j] in records[i];
        ChompKeepsTag(records[i][j]);
      }
    }
  }

  lemma ChompedSame(records: seq<Record>)
    ensures ChompRecords(records) == records <==>
              forall i, j :: 0 <= i < |records| && 0 <= j < |records[i]| ==> Chomp(records[i][j]) == records[i][j]
  {
    hide Chomp;
    var chomped := ChompRecords(records);
    if chomped == records {
      forall i, j | 0 <= i < |records| && 0 <= j < |records[i]| ensures Chomp(records[i][j]) == records[i][j] {
        assert chomped[i][j] == Chomp(records[i][j]);
      }
    }
    if forall i, j :: 0 <= i < |records| && 0 <= j < |records[i]| ==> Chomp(records[i][j]) == records[i][j] {
      assert forall i :: 0 <= i < |records| ==> chomped[i] == records[i];
      assert chomped == records;
    }
  }
}
