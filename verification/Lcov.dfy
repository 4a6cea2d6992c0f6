/** The whole coverage report: every record checked, the configured sources covered exactly once, totals and
    the obligations for branches that were not taken. */
module Lcov {
  import opened Common
  import opened Text
  import opened LcovSource
  import opened LcovText
  import opened LcovRecord
  import opened LcovEntries
  import Utf8

  const MAXIMUM_LCOV_BYTES := 32 * 1024 * 1024

  datatype Counter = Counter(covered: nat, total: nat)

  datatype SourceCoverage = SourceCoverage(
    source: string, lines: Counter, functions: Counter, branches: Counter, uncoveredBranches: seq<Branch>)

  /** An obligation is kept as its text. */
  datatype Configuration = Configuration(sources: seq<string>, obligations: map<string, string>, root: seq<string>)

  datatype Obligation = Obligation(source: string, line: nat, block: nat, branch: nat, text: string)

  datatype Report = Report(sources: seq<SourceCoverage>, uncovered: seq<Obligation>,
                           lines: Counter, functions: Counter, branches: Counter)

  // ------------------------------------------------------------ one record

  predicate TestNamesValid(lines: Record) {
    var names := Matching(lines, "TN:");
    |names| <= 1 && forall n :: n in names ==> n == "TN:"
  }

  function SourceOf(lines: Record, cfg: Configuration): Option<string> {
    var sf := Matching(lines, "SF:");
    if |sf| == 1 then NormalizeSource(sf[0][3..], cfg.sources, cfg.root) else None
  }

  predicate Summary(lines: Record, found: string, hit: string, c: Counter) {
    OneValue(lines, hit) == Some(c.covered) && OneValue(lines, found) == Some(c.total) && c.covered <= c.total
  }

  /** The record is well-formed and consistent, and c is what it says. */
  ghost predicate Gives(lines: Record, cfg: Configuration, c: SourceCoverage) {
    && TestNamesValid(lines) && SourceOf(lines, cfg) == Some(c.source)
    && Summary(lines, "LF:", "LH:", c.lines) && Summary(lines, "FNF:", "FNH:", c.functions)
    && Summary(lines, "BRF:", "BRH:", c.branches)
    && LinesConsistent(lines, c.lines.total, c.lines.covered)
    && FunctionsConsistent(lines, c.functions.total, c.functions.covered)
    && (exists b :: BranchesConsistent(lines, b, c.branches.total, c.branches.covered) && c.uncoveredBranches == Untaken(b))
  }

  lemma BranchesReadOnce(lines: Record, b: seq<Branch>, d: seq<Branch>)
    requires ReadBranches(lines, b) && ReadBranches(lines, d)
    ensures b == d
  {
    hide ParseBranch;
  }

  /** A record says one thing. */
  lemma GivesOne(lines: Record, cfg: Configuration, c: SourceCoverage, d: SourceCoverage)
    requires Gives(lines, cfg, c) && Gives(lines, cfg, d)
    ensures c == d
  {
    hide TestNamesValid, LinesConsistent, FunctionsConsistent, ReadBranches, OneValue, SourceOf;
    var b :| BranchesConsistent(lines, b, c.branches.total, c.branches.covered) && c.uncoveredBranches == Untaken(b);
    var e :| BranchesConsistent(lines, e, d.branches.total, d.branches.covered) && d.uncoveredBranches == Untaken(e);
    BranchesReadOnce(lines, b, e);
  }

  /** What a record counts are its own lines. */
  lemma GivenTotalsCountLines(lines: Record, cfg: Configuration, c: SourceCoverage)
    requires Gives(lines, cfg, c)
    ensures c.lines.total == |Matching(lines, "DA:")| && c.branches.total == |Matching(lines, "BRDA:")|
    ensures c.functions.total == |Matching(lines, "FN:")| == |Matching(lines, "FNDA:")|
    ensures |c.uncoveredBranches| == c.branches.total - c.branches.covered
  {
    hide TestNamesValid, SourceOf, OneValue, ParseBranch, ParseExecution, ParseCall, ParseDefinition;
  }

  lemma GivenWithin(lines: Record, cfg: Configuration, c: SourceCoverage)
    requires Gives(lines, cfg, c)
    ensures c.source in cfg.sources
    ensures c.lines.covered <= c.lines.total && c.functions.covered <= c.functions.total && c.branches.covered <= c.branches.total
  {
    hide TestNamesValid, OneValue, LinesConsistent, FunctionsConsistent, ReadBranches;
  }

  /** The coverage, told from the text of the lines: what is counted, and the untaken branches in their order. */
  ghost predicate Told(lines: Record, c: SourceCoverage) {
    && c.lines == Counter(|Only(lines, line => ReachedLine(line))|, |Matching(lines, "DA:")|)
    && c.functions == Counter(|Only(lines, line => CalledLine(line))|, |Matching(lines, "FNDA:")|)
    && c.branches == Counter(|Only(lines, line => TakenLine(line))|, |Matching(lines, "BRDA:")|)
    && var untaken := Only(lines, UntakenLine);
    && |untaken| == |c.uncoveredBranches|
    && (forall k :: 0 <= k < |untaken| ==> untaken[k] == PrintBranch(c.uncoveredBranches[k]))
  }

  lemma GivenIsTold(lines: Record, cfg: Configuration, c: SourceCoverage)
    requires Gives(lines, cfg, c)
    ensures Told(lines, c)
  {
    hide TestNamesValid, SourceOf, Summary, LinesConsistent, FunctionsConsistent, BranchesConsistent, Matching, Only, UntakenLine,
      TakenLine, ReachedLine, CalledLine, PrintBranch;
    GivenTotalsCountLines(lines, cfg, c);
    LinesCounted(lines, c.lines.total, c.lines.covered);
    FunctionsCounted(lines, c.functions.total, c.functions.covered);
    var b :| BranchesConsistent(lines, b, c.branches.total, c.branches.covered) && c.uncoveredBranches == Untaken(b);
    BranchesCounted(lines, b, c.branches.total, c.branches.covered);
  }

  function ReadSummary(lines: Record, found: string, hit: string): Option<Counter> {
    var covered, total := OneValue(lines, hit), OneValue(lines, found);
    if covered.None? || total.None? || covered.value > total.value then None else Some(Counter(covered.value, total.value))
  }

  /** The body of the loop over records. */
  method ReadRecord(lines: Record, cfg: Configuration) returns (r: Option<SourceCoverage>)
    ensures r.Some? ==> Gives(lines, cfg, r.value) && Told(lines, r.value)
    ensures r.None? ==> forall c :: !Gives(lines, cfg, c)
  {
    hide TestNamesValid, SourceOf, OneValue, LinesConsistent, FunctionsConsistent, ReadBranches, Distinct, Told;
    if !TestNamesValid(lines) { return None; }
    var source := SourceOf(lines, cfg);
    if source.None? { return None; }
    var l := ReadSummary(lines, "LF:", "LH:");
    var f := ReadSummary(lines, "FNF:", "FNH:");
    var b := ReadSummary(lines, "BRF:", "BRH:");
    if l.None? || f.None? || b.None? { return None; }
    var linesOk := ValidateLineRecords(lines, l.value.total, l.value.covered);
    if !linesOk { return None; }
    var functionsOk := ValidateFunctionRecords(lines, f.value.total, f.value.covered);
    if !functionsOk { return None; }
    var branches := BranchRecords(lines);
    if branches.None? { return None; }
    if |branches.value| != b.value.total || TakenCount(branches.value) != b.value.covered {
      forall c | Gives(lines, cfg, c) ensures c.branches != b.value { GivenBranches(lines, cfg, c, branches.value); }
      return None;
    }
    assert BranchesConsistent(lines, branches.value, b.value.total, b.value.covered);
    r := Some(SourceCoverage(source.value, l.value, f.value, b.value, Untaken(branches.value)));
    RecordTold(lines, cfg, r.value);
  }

  lemma RecordTold(lines: Record, cfg: Configuration, c: SourceCoverage)
    ensures Gives(lines, cfg, c) ==> Told(lines, c)
  {
    hide Gives, Told;
    if Gives(lines, cfg, c) { GivenIsTold(lines, cfg, c); }
  }

  lemma GivenBranches(lines: Record, cfg: Configuration, c: SourceCoverage, branches: seq<Branch>)
    requires Gives(lines, cfg, c) && ReadBranches(lines, branches)
    ensures BranchesConsistent(lines, branches, c.branches.total, c.branches.covered)
  {
    hide TestNamesValid, SourceOf, OneValue, LinesConsistent, FunctionsConsistent, ReadBranches;
    var d :| BranchesConsistent(lines, d, c.branches.total, c.branches.covered) && c.uncoveredBranches == Untaken(d);
    BranchesReadOnce(lines, branches, d);
  }

  // ------------------------------------------------------------ all records

  /** Each record gives its coverage, no source is covered twice. */
  ghost predicate Covers(records: seq<Record>, cfg: Configuration, covs: seq<SourceCoverage>) {
    && |covs| == |records|
    && (forall i :: 0 <= i < |records| ==> Gives(records[i], cfg, covs[i]))
    && (forall i, j :: 0 <= i < j < |covs| ==> covs[i].source != covs[j].source)
  }

  /** The coverage of the configured sources, in their order. */
  ghost predicate Ordered(covs: seq<SourceCoverage>, cfg: Configuration, ordered: seq<SourceCoverage>) {
    && |ordered| == |cfg.sources| == |covs|
    && (forall i :: 0 <= i < |ordered| ==> ordered[i] in covs && ordered[i].source == cfg.sources[i])
  }

  predicate ObligationsComplete(cfg: Configuration) {
    |cfg.obligations| == |cfg.sources| && forall s :: s in cfg.sources ==> s in cfg.obligations
  }

  function Sum(covs: seq<SourceCoverage>, key: SourceCoverage -> Counter): Counter {
    if covs == [] then Counter(0, 0)
    else
      var front, last := Sum(covs[..|covs| - 1], key), key(covs[|covs| - 1]);
      Counter(front.covered + last.covered, front.total + last.total)
  }

  function SourceObligations(source: string, branches: seq<Branch>, text: string): (r: seq<Obligation>)
    ensures |r| == |branches|
    ensures forall i :: 0 <= i < |r| ==> r[i] == Obligation(source, branches[i].line, branches[i].block, branches[i].branch, text)
  {
    seq(|branches|, i requires 0 <= i < |branches| =>
      Obligation(source, branches[i].line, branches[i].block, branches[i].branch, text))
  }

  function Obligations(ordered: seq<SourceCoverage>, cfg: Configuration): seq<Obligation>
    requires forall c :: c in ordered ==> c.source in cfg.obligations
  {
    if ordered == [] then []
    else
      var last := ordered[|ordered| - 1];
      Obligations(ordered[..|ordered| - 1], cfg) +
      SourceObligations(last.source, last.uncoveredBranches, cfg.obligations[last.source])
  }

  /** The report of records: the coverage of the configured sources, in their order, and what follows from it. */
  ghost predicate Reports(records: seq<Record>, cfg: Configuration, r: Report) {
    && (exists covs :: Covers(records, cfg, covs) && Ordered(covs, cfg, r.sources))
    && ObligationsComplete(cfg) && (forall c :: c in r.sources ==> c.source in cfg.obligations)
    && r.uncovered == Obligations(r.sources, cfg)
    && r.lines == Sum(r.sources, (c: SourceCoverage) => c.lines)
    && r.functions == Sum(r.sources, (c: SourceCoverage) => c.functions)
    && r.branches == Sum(r.sources, (c: SourceCoverage) => c.branches)
  }

  ghost predicate Parses(raw: string, cfg: Configuration, r: Report) {
    |Utf8.Encode(raw)| <= MAXIMUM_LCOV_BYTES && Records(raw).Some? && Reports(Records(raw).value, cfg, r)
  }

  // ------------------------------------------------------------ obligations, told from the text

  function Flattened(parts: seq<seq<Obligation>>): seq<Obligation> {
    if parts == [] then [] else Flattened(parts[..|parts| - 1]) + parts[|parts| - 1]
  }

  /** One obligation for each line of an untaken branch, in the order of the lines. */
  ghost predicate Owed(lines: Record, source: string, text: string, part: seq<Obligation>) {
    var untaken := Only(lines, UntakenLine);
    && |part| == |untaken|
    && (forall k :: 0 <= k < |part| ==>
          var o := part[k];
          && o.source == source && o.text == text
          && (untaken[k] == PrintBranch(Branch(o.line, o.block, o.branch, None)) ||
              untaken[k] == PrintBranch(Branch(o.line, o.block, o.branch, Some(0)))))
  }

  /** Each configured source has a record of its own, and owes what that says. */
  ghost predicate SourcesTold(records: seq<Record>, cfg: Configuration, r: Report, own: seq<Record>, parts: seq<seq<Obligation>>) {
    && |own| == |parts| == |r.sources| == |cfg.sources|
    && (forall i :: 0 <= i < |own| ==>
          && own[i] in records && SourceOf(own[i], cfg) == Some(cfg.sources[i]) && r.sources[i].source == cfg.sources[i]
          && Told(own[i], r.sources[i])
          && cfg.sources[i] in cfg.obligations && Owed(own[i], cfg.sources[i], cfg.obligations[cfg.sources[i]], parts[i]))
    && r.uncovered == Flattened(parts)
  }

  lemma {:induction false} ObligationsFlatten(ordered: seq<SourceCoverage>, cfg: Configuration) returns (parts: seq<seq<Obligation>>)
    requires forall c :: c in ordered ==> c.source in cfg.obligations
    ensures |parts| == |ordered| && Obligations(ordered, cfg) == Flattened(parts)
    ensures forall i :: 0 <= i < |parts| ==>
              parts[i] == SourceObligations(ordered[i].source, ordered[i].uncoveredBranches, cfg.obligations[ordered[i].source])
  {
    parts := [];
    if ordered != [] {
      var front, last := ordered[..|ordered| - 1], ordered[|ordered| - 1];
      parts := ObligationsFlatten(front, cfg);
      var part := SourceObligations(last.source, last.uncoveredBranches, cfg.obligations[last.source]);
      assert (parts + [part])[..|parts|] == parts;
      parts := parts + [part];
    }
  }

  /** A report says for every configured source what the lines of its own record say. */
  lemma ReportIsTold(records: seq<Record>, cfg: Configuration, r: Report) returns (own: seq<Record>, parts: seq<seq<Obligation>>)
    requires Reports(records, cfg, r)
    ensures SourcesTold(records, cfg, r, own, parts)
  {
    hide Gives, Told, Obligations, Sum, SourceOf, Owed, Flattened;
    var covs :| Covers(records, cfg, covs) && Ordered(covs, cfg, r.sources);
    parts := ObligationsFlatten(r.sources, cfg);
    own := seq(|r.sources|, i requires 0 <= i < |r.sources| => RecordFor(records, cfg, covs, r.sources[i]));
    forall i | 0 <= i < |own|
      ensures own[i] in records && SourceOf(own[i], cfg) == Some(cfg.sources[i]) && Told(own[i], r.sources[i])
      ensures Owed(own[i], cfg.sources[i], cfg.obligations[cfg.sources[i]], parts[i])
    {
      assert own[i] == RecordFor(records, cfg, covs, r.sources[i]);
      GivenIsTold(own[i], cfg, r.sources[i]);
      GivenSource(own[i], cfg, r.sources[i]);
      TakenIsUntold(own[i], cfg, r.sources[i]);
      ToldIsOwed(own[i], r.sources[i], cfg.obligations[cfg.sources[i]]);
    }
  }

  lemma GivenSource(lines: Record, cfg: Configuration, c: SourceCoverage)
    requires Gives(lines, cfg, c)
    ensures SourceOf(lines, cfg) == Some(c.source)
  {
    hide SourceOf;
  }

  /** The record that gives this coverage. */
  ghost function RecordFor(records: seq<Record>, cfg: Configuration, covs: seq<SourceCoverage>, c: SourceCoverage): (r: Record)
    requires Covers(records, cfg, covs) && c in covs
    ensures r in records && Gives(r, cfg, c)
  {
    var k :| 0 <= k < |covs| && covs[k] == c;
    records[k]
  }

  lemma TakenIsUntold(lines: Record, cfg: Configuration, c: SourceCoverage)
    requires Gives(lines, cfg, c)
    ensures forall k :: 0 <= k < |c.uncoveredBranches| ==>
              c.uncoveredBranches[k].taken == None || c.uncoveredBranches[k].taken == Some(0)
  {
    hide TestNamesValid, SourceOf, OneValue, LinesConsistent, FunctionsConsistent, ReadBranches;
    var b :| BranchesConsistent(lines, b, c.branches.total, c.branches.covered) && c.uncoveredBranches == Untaken(b);
    assert forall k :: 0 <= k < |Untaken(b)| ==> Untaken(b)[k] in Untaken(b);
  }

  lemma ToldIsOwed(lines: Record, c: SourceCoverage, text: string)
    requires Told(lines, c)
    requires forall k :: 0 <= k < |c.uncoveredBranches| ==>
      c.uncoveredBranches[k].taken == None || c.uncoveredBranches[k].taken == Some(0)
    ensures Owed(lines, c.source, text, SourceObligations(c.source, c.uncoveredBranches, text))
  {
    hide UntakenLine, PrintBranch, Matching;
    var part := SourceObligations(c.source, c.uncoveredBranches, text);
    forall k | 0 <= k < |part|
      ensures c.uncoveredBranches[k] == Branch(part[k].line, part[k].block, part[k].branch, c.uncoveredBranches[k].taken)
    {
    }
  }

  lemma CoversOne(records: seq<Record>, cfg: Configuration, covs: seq<SourceCoverage>, other: seq<SourceCoverage>)
    requires Covers(records, cfg, covs) && Covers(records, cfg, other)
    ensures covs == other
  {
    hide Gives;
    forall i | 0 <= i < |records| ensures covs[i] == other[i] { GivesOne(records[i], cfg, covs[i], other[i]); }
  }

  /** The records of a text, read one by one into a map from source to coverage. */
  method ReadRecords(records: seq<Record>, cfg: Configuration)
    returns (sources: Option<map<string, SourceCoverage>>, ghost covs: seq<SourceCoverage>)
    ensures sources.Some? ==> Covers(records, cfg, covs) && |sources.value| == |covs|
    ensures sources.Some? ==> forall c :: c in covs ==> c.source in sources.value
    ensures sources.Some? ==> forall s :: s in sources.value ==> sources.value[s] in covs && sources.value[s].source == s
    ensures sources.None? ==> forall other :: !Covers(records, cfg, other)
  {
    hide Gives, Covers;
    covs := [];
    CoversNone(records, cfg);
    var m: map<string, SourceCoverage> := map[];
    for i := 0 to |records|
      invariant Covers(records[..i], cfg, covs) && |m| == |covs|
      invariant forall c :: c in covs ==> c.source in m
      invariant forall s :: s in m ==> m[s] in covs && m[s].source == s
    {
      var c := ReadRecord(records[i], cfg);
      if c.None? {
        UnreadableRecord(records, cfg, i);
        sources := None;
        return;
      }
      if c.value.source in m {
        RepeatedSources(records, cfg, i, c.value, covs);
        sources := None;
        return;
      }
      CoversStep(records, cfg, i, covs, c.value);
      covs := covs + [c.value];
      m := m[c.value.source := c.value];
    }
    assert records[..|records|] == records;
    sources := Some(m);
  }

  lemma CoversNone(records: seq<Record>, cfg: Configuration)
    ensures Covers(records[..0], cfg, [])
  {
  }

  lemma CoversStep(records: seq<Record>, cfg: Configuration, i: nat, covs: seq<SourceCoverage>, c: SourceCoverage)
    requires i < |records| && Covers(records[..i], cfg, covs) && Gives(records[i], cfg, c)
    requires forall d :: d in covs ==> d.source != c.source
    ensures Covers(records[..i + 1], cfg, covs + [c])
  {
    hide Gives;
    assert forall k :: 0 <= k < i ==> records[..i + 1][k] == records[..i][k];
  }

  lemma UnreadableRecord(records: seq<Record>, cfg: Configuration, i: nat)
    requires i < |records| && forall c :: !Gives(records[i], cfg, c)
    ensures forall other :: !Covers(records, cfg, other)
  {
    hide Gives;
    forall other: seq<SourceCoverage> | |other| == |records| ensures !Gives(records[i], cfg, other[i]) {}
  }

  lemma RepeatedSources(records: seq<Record>, cfg: Configuration, i: nat, c: SourceCoverage, covs: seq<SourceCoverage>)
    requires i < |records| && Covers(records[..i], cfg, covs) && Gives(records[i], cfg, c)
    requires exists d :: d in covs && d.source == c.source
    ensures forall other :: !Covers(records, cfg, other)
  {
    hide Gives;
    forall other: seq<SourceCoverage> | |other| == |records| && forall k :: 0 <= k < |records| ==> Gives(records[k], cfg, other[k])
      ensures exists k :: 0 <= k < i && other[k].source == other[i].source
    {
      RepeatedSource(records, cfg, i, c, covs, other);
    }
  }

  lemma RepeatedSource(records: seq<Record>, cfg: Configuration, i: nat, c: SourceCoverage, covs: seq<SourceCoverage>,
                       other: seq<SourceCoverage>)
    requires i < |records| && Covers(records[..i], cfg, covs) && Gives(records[i], cfg, c)
    requires exists d :: d in covs && d.source == c.source
    requires |other| == |records| && forall k :: 0 <= k < |records| ==> Gives(records[k], cfg, other[k])
    ensures exists k :: 0 <= k < i && other[k].source == other[i].source
  {
    hide Gives;
    var k :| 0 <= k < |covs| && covs[k].source == c.source;
    assert records[..i][k] == records[k];
    GivesOne(records[k], cfg, covs[k], other[k]);
    GivesOne(records[i], cfg, c, other[i]);
  }

  /** parseExactTsCoverageLcov. */
  method ParseExactTsCoverageLcov(raw: string, cfg: Configuration) returns (r: Option<Report>)
    ensures r.Some? ==> Parses(raw, cfg, r.value)
    // What it says is what the lines say.
    ensures r.Some? ==> exists own, parts :: SourcesTold(Records(raw).value, cfg, r.value, own, parts)
    ensures r.None? ==> forall report :: !Parses(raw, cfg, report)
  {
    hide Gives, Records, Covers, Utf8.Encode, SourcesTold, Told;
    if |Utf8.Encode(raw)| > MAXIMUM_LCOV_BYTES { return None; }
    var records := LcovRecords(raw);
    if records.None? { return None; }
    var sources, covs := ReadRecords(records.value, cfg);
    if sources.None? { return None; }
    var m := sources.value;
    if |m| != |cfg.sources| || exists s :: s in cfg.sources && s !in m {
      forall report | Reports(records.value, cfg, report) ensures |covs| == |cfg.sources| && forall s :: s in cfg.sources ==> s in m {
        ReportedSources(records.value, cfg, covs, report);
      }
      return None;
    }
    var ordered := seq(|cfg.sources|, i requires 0 <= i < |cfg.sources| => m[cfg.sources[i]]);
    assert Ordered(covs, cfg, ordered);
    if !ObligationsComplete(cfg) { return None; }
    r := Some(Report(ordered, Obligations(ordered, cfg), Sum(ordered, (c: SourceCoverage) => c.lines),
                     Sum(ordered, (c: SourceCoverage) => c.functions), Sum(ordered, (c: SourceCoverage) => c.branches)));
    ghost var own, parts := ReportIsTold(records.value, cfg, r.value);
  }

  lemma ReportedSources(records: seq<Record>, cfg: Configuration, covs: seq<SourceCoverage>, report: Report)
    requires Covers(records, cfg, covs) && Reports(records, cfg, report)
    ensures Ordered(covs, cfg, report.sources)
    ensures forall s :: s in cfg.sources ==> exists c :: c in covs && c.source == s
  {
    hide Gives, Obligations, Sum;
    var other :| Covers(records, cfg, other) && Ordered(other, cfg, report.sources);
    CoversOne(records, cfg, covs, other);
    forall s | s in cfg.sources ensures exists c :: c in covs && c.source == s {
      var i :| 0 <= i < |cfg.sources| && cfg.sources[i] == s;
      assert report.sources[i] in covs;
    }
  }
}
