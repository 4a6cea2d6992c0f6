/** Coverage as it is written: what a well-formed record of entries and summaries is read as. */
module LcovWriting {
  import opened Common
  import opened Decimal
  import opened Text
  import opened LcovSource
  import opened LcovText
  import opened LcovRecord
  import opened Lcov
  import opened LcovProperties
  import Utf8

  datatype Written = Written(source: string, definitions: seq<(nat, string)>, calls: seq<Entry<string>>,
                             executions: seq<Entry<nat>>, branches: seq<Branch>)

  function Names(definitions: seq<(nat, string)>): (r: seq<string>)
    ensures |r| == |definitions| && forall i :: 0 <= i < |r| ==> r[i] == definitions[i].1
  {
    seq(|definitions|, i requires 0 <= i < |definitions| => definitions[i].1)
  }

  /** Every number is safe and positive where it must be, and nothing is given twice. */
  ghost predicate WellFormed(w: Written, cfg: Configuration) {
    && '\0' !in w.source && Slashes(w.source) == w.source && w.source in cfg.sources && AllPlain(Split(w.source, '/'))
    && AllPlain(cfg.root) && cfg.root != []
    && (forall i :: 0 <= i < |w.definitions| ==>
          1 <= w.definitions[i].0 && SafeCount(w.definitions[i].0) && w.definitions[i].1 != "")
    && (forall i :: 0 <= i < |w.calls| ==> SafeCount(w.calls[i].executions) && w.calls[i].key != "")
    && LcovRecord.Distinct(Names(w.definitions)) && LcovRecord.Distinct(Keys(w.calls)) && |w.definitions| == |w.calls|
    && (forall n :: n in Names(w.definitions) <==> n in Keys(w.calls))
    && (forall i :: 0 <= i < |w.executions| ==>
          1 <= w.executions[i].key && SafeCount(w.executions[i].key) && SafeCount(w.executions[i].executions))
    && LcovRecord.Distinct(Keys(w.executions))
    && (forall i :: 0 <= i < |w.branches| ==>
          var b := w.branches[i];
          1 <= b.line && SafeCount(b.line) && SafeCount(b.block) && SafeCount(b.branch) && (b.taken.Some? ==> SafeCount(b.taken.value)))
    && LcovRecord.Distinct(Identities(w.branches))
    && SafeCount(|w.calls|) && SafeCount(|w.executions|) && SafeCount(|w.branches|)
  }

  function CoverageOf(w: Written): SourceCoverage {
    SourceCoverage(w.source, Counter(Hit(w.executions), |w.executions|), Counter(Hit(w.calls), |w.calls|),
                   Counter(TakenCount(w.branches), |w.branches|), Untaken(w.branches))
  }

  // ------------------------------------------------------------ blocks of lines

  /** Lines that all start with one tag. */
  datatype Block = Block(tag: string, lines: seq<string>)

  predicate BlockOk(b: Block) {
    forall line :: line in b.lines ==> b.tag <= line
  }

  function Flatten(blocks: seq<Block>): seq<string> {
    if blocks == [] then [] else blocks[0].lines + Flatten(blocks[1..])
  }

  function Select(blocks: seq<Block>, tag: string): seq<string> {
    if blocks == [] then [] else (if blocks[0].tag == tag then blocks[0].lines else []) + Select(blocks[1..], tag)
  }

  const TAGS := ["TN:", "SF:", "FN:", "FNDA:", "FNF:", "FNH:", "DA:", "LF:", "LH:", "BRDA:", "BRF:", "BRH:"]

  /** No tag is the beginning of another one. */
  predicate Apart(p: string, q: string) {
    exists i :: 0 <= i < |p| && i < |q| && p[i] != q[i]
  }

  lemma TagsApart(i: nat, j: nat)
    requires i < |TAGS| && j < |TAGS| && i != j
    ensures Apart(TAGS[i], TAGS[j])
  {
    var p, q := TAGS[i], TAGS[j];
    if p[0] == q[0] {
      if p[1] == q[1] { assert p[2] != q[2]; }
    }
  }

  lemma {:induction false} MatchingBlock(lines: seq<string>, q: string, p: string)
    requires (forall line :: line in lines ==> q <= line) && (p == q || Apart(p, q))
    ensures Matching(lines, p) == if p == q then lines else []
  {
    if lines != [] {
      var front, last := lines[..|lines| - 1], lines[|lines| - 1];
      assert lines == front + [last];
      assert forall line :: line in front ==> line in lines;
      assert last in lines;
      MatchingBlock(front, q, p);
    }
  }

  lemma {:induction false} MatchingFlatten(blocks: seq<Block>, p: string)
    requires forall b :: b in blocks ==> BlockOk(b) && (p == b.tag || Apart(p, b.tag))
    ensures Matching(Flatten(blocks), p) == Select(blocks, p)
  {
    if blocks != [] {
      var b := blocks[0];
      assert b in blocks && BlockOk(b);
      MatchingFlatten(blocks[1..], p);
      MatchingBlock(b.lines, b.tag, p);
      MatchingConcat(b.lines, Flatten(blocks[1..]), p);
    }
  }

  // ------------------------------------------------------------ a record

  function WriteDefinitions(d: seq<(nat, string)>): (r: seq<string>)
    ensures |r| == |d| && forall i :: 0 <= i < |r| ==> r[i] == PrintDefinition(d[i].0, d[i].1)
  {
    seq(|d|, i requires 0 <= i < |d| => PrintDefinition(d[i].0, d[i].1))
  }

  function WriteCalls(c: seq<Entry<string>>): (r: seq<string>)
    ensures |r| == |c| && forall i :: 0 <= i < |r| ==> r[i] == PrintCall(c[i])
  {
    seq(|c|, i requires 0 <= i < |c| => PrintCall(c[i]))
  }

  function WriteExecutions(e: seq<Entry<nat>>): (r: seq<string>)
    ensures |r| == |e| && forall i :: 0 <= i < |r| ==> r[i] == PrintExecution(e[i])
  {
    seq(|e|, i requires 0 <= i < |e| => PrintExecution(e[i]))
  }

  function WriteBranches(b: seq<Branch>): (r: seq<string>)
    ensures |r| == |b| && forall i :: 0 <= i < |r| ==> r[i] == PrintBranch(b[i])
  {
    seq(|b|, i requires 0 <= i < |b| => PrintBranch(b[i]))
  }

  /** The lines of a record with the k-th tag. */
  function LinesOf(w: Written, k: nat): seq<string>
    requires k < |TAGS|
  {
    if k == 0 then ["TN:"]
    else if k == 1 then ["SF:" + w.source]
    else if k == 2 then WriteDefinitions(w.definitions)
    else if k == 3 then WriteCalls(w.calls)
    else if k == 4 then ["FNF:" + Numeral(|w.calls|)]
    else if k == 5 then ["FNH:" + Numeral(Hit(w.calls))]
    else if k == 6 then WriteExecutions(w.executions)
    else if k == 7 then ["LF:" + Numeral(|w.executions|)]
    else if k == 8 then ["LH:" + Numeral(Hit(w.executions))]
    else if k == 9 then WriteBranches(w.branches)
    else if k == 10 then ["BRF:" + Numeral(|w.branches|)]
    else ["BRH:" + Numeral(TakenCount(w.branches))]
  }

  /** The blocks of a record, one for each tag and in the order of the tags. */
  function Blocks(w: Written): (r: seq<Block>)
    ensures |r| == |TAGS| && forall i :: 0 <= i < |r| ==> r[i] == Block(TAGS[i], LinesOf(w, i))
  {
    seq(|TAGS|, i requires 0 <= i < |TAGS| => Block(TAGS[i], LinesOf(w, i)))
  }

  function RecordOf(w: Written): Record {
    Flatten(Blocks(w))
  }

  lemma LinesOk(w: Written, k: nat)
    requires k < |TAGS|
    ensures forall line :: line in LinesOf(w, k) ==> TAGS[k] <= line
  {
    hide Numeral, Join, Hit, TakenCount, PrintTaken;
    forall i | 0 <= i < |w.definitions| ensures "FN:" <= PrintDefinition(w.definitions[i].0, w.definitions[i].1) {}
    forall i | 0 <= i < |w.calls| ensures "FNDA:" <= PrintCall(w.calls[i]) {}
    forall i | 0 <= i < |w.executions| ensures "DA:" <= PrintExecution(w.executions[i]) {}
    forall i | 0 <= i < |w.branches| ensures "BRDA:" <= PrintBranch(w.branches[i]) {}
  }

  lemma BlocksOk(w: Written)
    ensures forall b :: b in Blocks(w) ==> BlockOk(b)
  {
    hide LinesOf, Blocks;
    forall b | b in Blocks(w) ensures BlockOk(b) {
      var k :| 0 <= k < |Blocks(w)| && Blocks(w)[k] == b;
      LinesOk(w, k);
    }
  }

  lemma {:induction false} SelectOnly(blocks: seq<Block>, k: nat)
    requires k < |blocks| && forall i :: 0 <= i < |blocks| && i != k ==> blocks[i].tag != blocks[k].tag
    ensures Select(blocks, blocks[k].tag) == blocks[k].lines
  {
    if k == 0 {
      SelectNone(blocks[1..], blocks[0].tag);
      assert blocks[0].lines + [] == blocks[0].lines;
    } else {
      assert blocks[1..][k - 1] == blocks[k];
      SelectOnly(blocks[1..], k - 1);
      assert [] + Select(blocks[1..], blocks[k].tag) == Select(blocks[1..], blocks[k].tag);
    }
  }

  lemma {:induction false} SelectNone(blocks: seq<Block>, tag: string)
    requires forall i :: 0 <= i < |blocks| ==> blocks[i].tag != tag
    ensures Select(blocks, tag) == []
  {
    if blocks != [] { SelectNone(blocks[1..], tag); }
  }

  /** The lines with the k-th tag are those of the k-th block. */
  lemma MatchingRecord(w: Written, k: nat)
    requires k < |TAGS|
    ensures Matching(RecordOf(w), TAGS[k]) == LinesOf(w, k)
  {
    hide Matching, Flatten, Select, Apart, LinesOf, Blocks;
    BlocksOk(w);
    var blocks := Blocks(w);
    forall b | b in blocks ensures TAGS[k] == b.tag || Apart(TAGS[k], b.tag) {
      var i :| 0 <= i < |blocks| && blocks[i] == b;
      if i != k { TagsApart(k, i); }
    }
    forall i | 0 <= i < |blocks| && i != k ensures blocks[i].tag != blocks[k].tag {
      TagsApart(k, i);
      ApartDiffer(TAGS[k], TAGS[i]);
    }
    MatchingFlatten(blocks, TAGS[k]);
    SelectOnly(blocks, k);
  }

  lemma ApartDiffer(p: string, q: string)
    requires Apart(p, q)
    ensures p != q
  {
  }

  lemma OneValueReads(lines: Record, tag: string, n: nat)
    requires Matching(lines, tag) == [tag + Numeral(n)] && SafeCount(n)
    ensures OneValue(lines, tag) == Some(n)
  {
    assert (tag + Numeral(n))[|tag|..] == Numeral(n);
    CountReadsNumerals(Numeral(n), n);
  }

  lemma WrittenEntriesRead(w: Written, cfg: Configuration)
    requires WellFormed(w, cfg)
    ensures ReadDefinitions(RecordOf(w), Names(w.definitions)) && ReadCalls(RecordOf(w), w.calls)
    ensures ReadExecutions(RecordOf(w), w.executions) && ReadBranches(RecordOf(w), w.branches)
  {
    hide Matching, RecordOf, ParseDefinition, ParseCall, ParseExecution, ParseBranch, PrintDefinition, PrintCall,
      PrintExecution, PrintBranch, AllPlain, LcovRecord.Distinct;
    MatchingRecord(w, 2);
    MatchingRecord(w, 3);
    MatchingRecord(w, 6);
    MatchingRecord(w, 9);
    BlocksOk(w);
    var m := Matching(RecordOf(w), "FN:");
    forall i | 0 <= i < |m| ensures ParseDefinition(m[i]) == Some(w.definitions[i].1) {
      DefinitionReadsPrinted(m[i], w.definitions[i].1);
      assert m[i] == PrintDefinition(w.definitions[i].0, w.definitions[i].1);
    }
    var n := Matching(RecordOf(w), "FNDA:");
    forall i | 0 <= i < |n| ensures ParseCall(n[i]) == Some(w.calls[i]) { CallReadsPrinted(n[i], w.calls[i]); }
    var o := Matching(RecordOf(w), "DA:");
    forall i | 0 <= i < |o| ensures ParseExecution(o[i]) == Some(w.executions[i]) { ExecutionReadsPrinted(o[i], w.executions[i]); }
    var p := Matching(RecordOf(w), "BRDA:");
    forall i | 0 <= i < |p| ensures ParseBranch(p[i]) == Some(w.branches[i]) { BranchReadsPrinted(p[i], w.branches[i]); }
  }

  /** Two lines with the summary of one kind of entries. */
  lemma SummaryReads(w: Written, found: nat, hit: nat, c: Counter)
    requires found < |TAGS| && hit < |TAGS| && c.covered <= c.total && SafeCount(c.total)
    requires LinesOf(w, found) == [TAGS[found] + Numeral(c.total)] && LinesOf(w, hit) == [TAGS[hit] + Numeral(c.covered)]
    ensures Summary(RecordOf(w), TAGS[found], TAGS[hit], c)
  {
    hide Matching, RecordOf, OneValue, LinesOf, Numeral;
    MatchingRecord(w, found);
    MatchingRecord(w, hit);
    OneValueReads(RecordOf(w), TAGS[found], c.total);
    OneValueReads(RecordOf(w), TAGS[hit], c.covered);
  }

  lemma WrittenSummaries(w: Written, cfg: Configuration)
    requires WellFormed(w, cfg)
    ensures var c := CoverageOf(w);
            Summary(RecordOf(w), "LF:", "LH:", c.lines) && Summary(RecordOf(w), "FNF:", "FNH:", c.functions) &&
            Summary(RecordOf(w), "BRF:", "BRH:", c.branches)
  {
    hide RecordOf, Summary, AllPlain, LcovRecord.Distinct, Numeral, Hit, TakenCount;
    var c := CoverageOf(w);
    SummaryReads(w, 7, 8, c.lines);
    SummaryReads(w, 4, 5, c.functions);
    SummaryReads(w, 10, 11, c.branches);
  }

  lemma WrittenHead(w: Written)
    ensures Matching(RecordOf(w), "TN:") == ["TN:"] && Matching(RecordOf(w), "SF:") == ["SF:" + w.source]
  {
    MatchingRecord(w, 0);
    MatchingRecord(w, 1);
    hide Matching, RecordOf;
  }

  lemma WrittenSource(w: Written, cfg: Configuration)
    requires WellFormed(w, cfg)
    ensures TestNamesValid(RecordOf(w)) && SourceOf(RecordOf(w), cfg) == Some(w.source)
  {
    hide Matching, RecordOf, NormalizeSource, WellFormed;
    WellFormedSource(w, cfg);
    WrittenHead(w);
    assert ("SF:" + w.source)[3..] == w.source;
  }

  lemma WellFormedSource(w: Written, cfg: Configuration)
    requires WellFormed(w, cfg)
    ensures NormalizeSource(w.source, cfg.sources, cfg.root) == Some(w.source)
  {
    hide NormalizeSource, AllPlain, LcovRecord.Distinct, Split, Slashes;
    AcceptedSources(w.source, cfg.sources, cfg.root);
  }

  lemma WrittenConsistent(w: Written, cfg: Configuration)
    requires WellFormed(w, cfg)
    ensures LinesConsistent(RecordOf(w), |w.executions|, Hit(w.executions))
    ensures FunctionsConsistent(RecordOf(w), |w.calls|, Hit(w.calls))
    ensures BranchesConsistent(RecordOf(w), w.branches, |w.branches|, TakenCount(w.branches))
  {
    hide RecordOf, ReadDefinitions, ReadCalls, ReadExecutions, ReadBranches, AllPlain, LcovRecord.Distinct, Hit, TakenCount;
    WrittenEntriesRead(w, cfg);
  }

  /** Every well-formed coverage, written as a record, is accepted and read as itself. */
  lemma WrittenRecordIsRead(w: Written, cfg: Configuration)
    requires WellFormed(w, cfg)
    ensures Gives(RecordOf(w), cfg, CoverageOf(w))
  {
    hide RecordOf, WellFormed, TestNamesValid, SourceOf, Summary, LinesConsistent, FunctionsConsistent, BranchesConsistent;
    WrittenSource(w, cfg);
    WrittenSummaries(w, cfg);
    WrittenConsistent(w, cfg);
    var c := CoverageOf(w);
    assert BranchesConsistent(RecordOf(w), w.branches, c.branches.total, c.branches.covered) && c.uncoveredBranches == Untaken(w.branches);
  }

  // ------------------------------------------------------------ a whole report

  const TAG_NAMES := ["TN", "SF", "FN", "FNDA", "FNF", "FNH", "DA", "LF", "LH", "BRDA", "BRF", "BRH"]

  lemma TagNames(i: nat)
    requires i < |TAGS|
    ensures TAGS[i] == TAG_NAMES[i] + ":" && ':' !in TAG_NAMES[i] && TAG_NAMES[i] in ALLOWED_TAGS
  {
  }

  lemma TagOf(line: string, i: nat)
    requires i < |TAGS| && TAGS[i] <= line
    ensures Tagged(line)
  {
    TagNames(i);
    var name, rest := TAG_NAMES[i], line[|TAGS[i]|..];
    assert line == name + (":" + rest);
    SplitPrefix(name, ":" + rest, ':');
    assert (":" + rest)[1..] == rest;
    assert Split(":" + rest, ':') == [[]] + Split(rest, ':');
    assert name + [] == name;
    assert Split(line, ':') == [name] + Split(rest, ':');
  }

  /** A line is tagged exactly when it starts with one of the twelve tags. */
  lemma TaggedExactly(line: string)
    ensures Tagged(line) <==> exists i :: 0 <= i < 12 && TAGS[i] <= line
  {
    hide Tagged;
    if i :| 0 <= i < 12 && TAGS[i] <= line { TagOf(line, i); }
    if Tagged(line) { TagOfTagged(line); }
  }

  lemma TagListed(tag: string)
    requires tag in ALLOWED_TAGS
    ensures exists i :: 0 <= i < 12 && TAG_NAMES[i] == tag
  {
    assert TAG_NAMES[0] == "TN" && TAG_NAMES[1] == "SF" && TAG_NAMES[2] == "FN" && TAG_NAMES[3] == "FNDA" && TAG_NAMES[4] == "FNF";
    assert TAG_NAMES[5] == "FNH" && TAG_NAMES[6] == "DA" && TAG_NAMES[7] == "LF" && TAG_NAMES[8] == "LH" && TAG_NAMES[9] == "BRDA";
    assert TAG_NAMES[10] == "BRF" && TAG_NAMES[11] == "BRH";
  }

  lemma TagOfTagged(line: string)
    requires Tagged(line)
    ensures exists i :: 0 <= i < 12 && TAGS[i] <= line
  {
    if ':' !in line { NoColonNoTag(line); }
    var fields := Split(line, ':');
    JoinSplit(line, ':');
    assert line == fields[0] + [':'] + Join(fields[1..], ':');
    TagListed(fields[0]);
    var i :| 0 <= i < 12 && TAG_NAMES[i] == fields[0];
    TagNames(i);
    assert TAGS[i] == fields[0] + [':'];
  }

  /** No name has a line end in it. */
  predicate OneLine(w: Written) {
    '\n' !in w.source && (forall i :: 0 <= i < |w.definitions| ==> '\n' !in w.definitions[i].1) &&
    (forall i :: 0 <= i < |w.calls| ==> '\n' !in w.calls[i].key)
  }

  lemma NumeralOneLine(n: nat)
    ensures '\n' !in Numeral(n)
  {
  }

  lemma {:induction false} JoinOneLine(parts: seq<string>)
    requires forall p :: p in parts ==> '\n' !in p
    ensures '\n' !in Join(parts, ',')
  {
    if |parts| > 1 { JoinOneLine(parts[1..]); }
  }

  lemma BranchOneLine(b: Branch)
    ensures '\n' !in PrintBranch(b)
  {
    NumeralOneLine(b.line);
    NumeralOneLine(b.block);
    NumeralOneLine(b.branch);
    if b.taken.Some? { NumeralOneLine(b.taken.value); }
    hide Numeral, Join;
    JoinOneLine([Numeral(b.line), Numeral(b.block), Numeral(b.branch), PrintTaken(b.taken)]);
  }

  lemma ExecutionOneLine(e: Entry<nat>)
    ensures '\n' !in PrintExecution(e)
  {
    NumeralOneLine(e.key);
    NumeralOneLine(e.executions);
    hide Numeral, Join;
    JoinOneLine([Numeral(e.key), Numeral(e.executions)]);
  }

  lemma BlockOneLine(w: Written, k: nat)
    requires OneLine(w) && k < |TAGS|
    ensures forall line :: line in LinesOf(w, k) ==> '\n' !in line
  {
    hide Numeral, PrintBranch, PrintExecution, Hit, TakenCount;
    NumeralOneLine(|w.calls|);
    NumeralOneLine(Hit(w.calls));
    NumeralOneLine(|w.executions|);
    NumeralOneLine(Hit(w.executions));
    NumeralOneLine(|w.branches|);
    NumeralOneLine(TakenCount(w.branches));
    forall i | 0 <= i < |w.definitions| ensures '\n' !in PrintDefinition(w.definitions[i].0, w.definitions[i].1) {
      NumeralOneLine(w.definitions[i].0);
    }
    forall i | 0 <= i < |w.calls| ensures '\n' !in PrintCall(w.calls[i]) { NumeralOneLine(w.calls[i].executions); }
    forall i | 0 <= i < |w.executions| ensures '\n' !in PrintExecution(w.executions[i]) { ExecutionOneLine(w.executions[i]); }
    forall i | 0 <= i < |w.branches| ensures '\n' !in PrintBranch(w.branches[i]) { BranchOneLine(w.branches[i]); }
  }

  lemma {:induction false} InFlatten(blocks: seq<Block>, line: string) returns (k: nat)
    requires line in Flatten(blocks)
    ensures k < |blocks| && line in blocks[k].lines
  {
    if line in blocks[0].lines {
      k := 0;
    } else {
      k := InFlatten(blocks[1..], line);
      k := k + 1;
    }
  }

  lemma WrittenRecordValid(w: Written)
    requires OneLine(w)
    ensures ValidRecord(RecordOf(w))
  {
    hide Tagged, Flatten, OneLine, LinesOf, Blocks;
    BlocksOk(w);
    forall line | line in RecordOf(w) ensures Tagged(line) && '\n' !in line {
      var k := InFlatten(Blocks(w), line);
      BlockOneLine(w, k);
      assert BlockOk(Blocks(w)[k]);
      TagOf(line, k);
    }
    RecordNotEmpty(w);
  }

  lemma RecordNotEmpty(w: Written)
    ensures RecordOf(w) != []
  {
    hide Blocks;
    assert Blocks(w)[0].lines == ["TN:"];
  }

  function RecordsOf(ws: seq<Written>): (r: seq<Record>)
    ensures |r| == |ws| && forall i :: 0 <= i < |r| ==> r[i] == RecordOf(ws[i])
  {
    seq(|ws|, i requires 0 <= i < |ws| => RecordOf(ws[i]))
  }

  function CoveragesOf(ws: seq<Written>): (r: seq<SourceCoverage>)
    ensures |r| == |ws| && forall i :: 0 <= i < |r| ==> r[i] == CoverageOf(ws[i])
  {
    seq(|ws|, i requires 0 <= i < |ws| => CoverageOf(ws[i]))
  }

  function ReportOf(covs: seq<SourceCoverage>, cfg: Configuration): Report
    requires forall c :: c in covs ==> c.source in cfg.obligations
  {
    Report(covs, Obligations(covs, cfg), Sum(covs, (c: SourceCoverage) => c.lines),
           Sum(covs, (c: SourceCoverage) => c.functions), Sum(covs, (c: SourceCoverage) => c.branches))
  }

  /** One well-formed coverage for each configured source, in their order. */
  ghost predicate AllWritten(ws: seq<Written>, cfg: Configuration) {
    && |ws| == |cfg.sources| && LcovRecord.Distinct(cfg.sources) && ObligationsComplete(cfg)
    && (forall i :: 0 <= i < |ws| ==> WellFormed(ws[i], cfg) && OneLine(ws[i]) && ws[i].source == cfg.sources[i])
  }

  lemma ObligationsFor(ws: seq<Written>, cfg: Configuration)
    requires AllWritten(ws, cfg)
    ensures forall c :: c in CoveragesOf(ws) ==> c.source in cfg.obligations
  {
    hide WellFormed, OneLine;
    forall c | c in CoveragesOf(ws) ensures c.source in cfg.obligations {
      var i :| 0 <= i < |ws| && CoveragesOf(ws)[i] == c;
      assert cfg.sources[i] in cfg.sources;
    }
  }

  lemma WrittenCovers(ws: seq<Written>, cfg: Configuration)
    requires AllWritten(ws, cfg)
    ensures Covers(RecordsOf(ws), cfg, CoveragesOf(ws)) && Ordered(CoveragesOf(ws), cfg, CoveragesOf(ws))
  {
    hide WellFormed, OneLine, RecordOf, Gives;
    forall i | 0 <= i < |ws| ensures Gives(RecordsOf(ws)[i], cfg, CoveragesOf(ws)[i]) { WrittenRecordIsRead(ws[i], cfg); }
  }

  lemma WrittenValid(ws: seq<Written>, records: seq<Record>)
    requires forall i :: 0 <= i < |ws| ==> OneLine(ws[i])
    requires multiset(records) == multiset(RecordsOf(ws))
    ensures ValidRecords(records)
  {
    hide OneLine, RecordOf, ValidRecord;
    PermutedMembers(records, RecordsOf(ws));
    forall record | record in records ensures ValidRecord(record) {
      var i :| 0 <= i < |ws| && RecordsOf(ws)[i] == record;
      WrittenRecordValid(ws[i]);
    }
  }

  /** Well-formed coverage of all configured sources, written as records in any order under CRLF line ends and
      within the byte limit, is read as itself, in the order of the configuration. */
  lemma WrittenReportIsRead(ws: seq<Written>, cfg: Configuration, records: seq<Record>)
    requires AllWritten(ws, cfg) && multiset(records) == multiset(RecordsOf(ws))
    requires |Utf8.Encode(Print(records, "\r\n"))| <= MAXIMUM_LCOV_BYTES
    ensures forall c :: c in CoveragesOf(ws) ==> c.source in cfg.obligations
    ensures Parses(Print(records, "\r\n"), cfg, ReportOf(CoveragesOf(ws), cfg))
  {
    hide WellFormed, OneLine, RecordsOf, CoveragesOf, Records, Covers, Ordered, Obligations, Sum, Print, Utf8.Encode, ValidRecords;
    ObligationsFor(ws, cfg);
    WrittenCovers(ws, cfg);
    var r := ReportOf(CoveragesOf(ws), cfg);
    assert Reports(RecordsOf(ws), cfg, r);
    OrderIndependent(RecordsOf(ws), records, cfg, r);
    WrittenValid(ws, records);
    PrintedIsRead(records);
  }

  /** The failing case of line ends: under LF a source name that ends in a carriage return is read without it. */
  lemma CarriageReturnIsLost()
    ensures ValidRecords([["SF:a\r"]])
    ensures Records(Print([["SF:a\r"]], "\n")) == Some([["SF:a"]])
    ensures Records(Print([["SF:a\r"]], "\r\n")) == Some([["SF:a\r"]])
  {
    hide Tagged, Records, Print;
    TagOf("SF:a\r", 1);
    PrintedIsRead([["SF:a\r"]]);
    assert Chomp("SF:a\r") == "SF:a";
    assert ChompAll(["SF:a\r"])[0] == "SF:a";
    assert ChompAll(["SF:a\r"]) == ["SF:a"];
    assert ChompRecords([["SF:a\r"]])[0] == ChompAll(["SF:a\r"]);
    assert ChompRecords([["SF:a\r"]]) == [["SF:a"]];
  }
}
