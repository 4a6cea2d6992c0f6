/**
 Which records and which reports are accepted, told from the text of the lines alone: what each line has to look
 like, what must not be given twice, and which lines have to be there.
 */
module LcovLedger {
  import opened Common
  import opened Text
  import opened Decimal
  import opened LcovSource
  import opened LcovText
  import opened LcovRecord
  import opened LcovEntries
  import opened Lcov
  import opened LcovProperties
  import Utf8

  /** A number that a double holds exactly. */
  predicate Exact(n: nat) {
    n <= 9007199254740991
  }

  // ------------------------------------------------------------ single lines

  /** The DA line of a source line, with any count. */
  ghost predicate ExecutionOf(line: string, number: nat) {
    1 <= number && Exact(number) && exists n :: Exact(n) && line == "DA:" + Join([Numeral(number), Numeral(n)], ',')
  }

  /** The BRDA line of a branch, with a dash or any count. */
  ghost predicate BranchOf(line: string, id: (nat, nat, nat)) {
    && 1 <= id.0 && Exact(id.0) && Exact(id.1) && Exact(id.2)
    && (|| line == "BRDA:" + Join([Numeral(id.0), Numeral(id.1), Numeral(id.2), "-"], ',')
        || exists n :: Exact(n) && line == "BRDA:" + Join([Numeral(id.0), Numeral(id.1), Numeral(id.2), Numeral(n)], ','))
  }

  /** The FN line of a function, with any line number. */
  ghost predicate DefinitionOf(line: string, name: string) {
    name != "" && exists n :: 1 <= n && Exact(n) && line == "FN:" + (Numeral(n) + "," + name)
  }

  /** The FNDA line of a function, with any count. */
  ghost predicate CallOf(line: string, name: string) {
    name != "" && exists n :: Exact(n) && line == "FNDA:" + (Numeral(n) + "," + name)
  }

  // ------------------------------------------------------------ a record

  /** The summary lines of one kind: one of each, with these numbers. */
  ghost predicate Totals(lines: Record, found: string, hit: string, c: Counter) {
    && Matching(lines, found) == [found + Numeral(c.total)] && Matching(lines, hit) == [hit + Numeral(c.covered)]
    && c.covered <= c.total && Exact(c.total)
  }

  /** The source is named by the only SF line. */
  ghost predicate NamesSource(lines: Record, cfg: Configuration, source: string) {
    exists raw :: Matching(lines, "SF:") == ["SF:" + raw] && NormalizeSource(raw, cfg.sources, cfg.root) == Some(source)
  }

  ghost predicate ListsLines(lines: Record, numbers: seq<nat>) {
    var m := Matching(lines, "DA:");
    |numbers| == |m| && (forall k :: 0 <= k < |m| ==> ExecutionOf(m[k], numbers[k])) && Distinct(numbers)
  }

  ghost predicate ListsBranches(lines: Record, ids: seq<(nat, nat, nat)>) {
    var m := Matching(lines, "BRDA:");
    |ids| == |m| && (forall k :: 0 <= k < |m| ==> BranchOf(m[k], ids[k])) && Distinct(ids)
  }

  ghost predicate ListsFunctions(lines: Record, names: seq<string>, called: seq<string>) {
    var m, n := Matching(lines, "FN:"), Matching(lines, "FNDA:");
    && |names| == |m| && |called| == |n|
    && (forall k :: 0 <= k < |m| ==> DefinitionOf(m[k], names[k])) && Distinct(names)
    && (forall k :: 0 <= k < |n| ==> CallOf(n[k], called[k])) && Distinct(called)
    && |names| == |called| && (forall name :: name in names <==> name in called)
  }

  /** No test is named: at most one TN line, and a bare one. */
  predicate NoTestNamed(lines: Record) {
    Matching(lines, "TN:") == [] || Matching(lines, "TN:") == ["TN:"]
  }

  /** What a record has to be, and what it then says. */
  ghost predicate Ledger(lines: Record, cfg: Configuration, c: SourceCoverage) {
    && NoTestNamed(lines) && NamesSource(lines, cfg, c.source)
    && Totals(lines, "LF:", "LH:", c.lines) && Totals(lines, "FNF:", "FNH:", c.functions) && Totals(lines, "BRF:", "BRH:", c.branches)
    && (exists numbers :: ListsLines(lines, numbers)) && (exists ids :: ListsBranches(lines, ids))
    && (exists names, called :: ListsFunctions(lines, names, called))
    && Told(lines, c)
  }

  // ------------------------------------------------------------ entries that can be read

  lemma ExecutionExactly(line: string, number: nat)
    requires "DA:" <= line
    ensures ExecutionOf(line, number) <==> ParseExecution(line).Some? && ParseExecution(line).value.key == number
  {
    hide ParseExecution, Join, Numeral;
    if ParseExecution(line).Some? {
      ExecutionReadsPrinted(line, ParseExecution(line).value);
    }
    if ExecutionOf(line, number) {
      var n :| Exact(n) && line == "DA:" + Join([Numeral(number), Numeral(n)], ',');
      ExecutionReadsPrinted(line, Entry(number, n));
    }
  }

  lemma BranchExactly(line: string, id: (nat, nat, nat))
    requires "BRDA:" <= line
    ensures BranchOf(line, id) <==> ParseBranch(line).Some? && Identity(ParseBranch(line).value) == id
  {
    hide ParseBranch, Join, Numeral;
    if ParseBranch(line).Some? {
      BranchReadsPrinted(line, ParseBranch(line).value);
    }
    if BranchOf(line, id) {
      if line == "BRDA:" + Join([Numeral(id.0), Numeral(id.1), Numeral(id.2), "-"], ',') {
        BranchReadsPrinted(line, Branch(id.0, id.1, id.2, None));
      } else {
        var n :| Exact(n) && line == "BRDA:" + Join([Numeral(id.0), Numeral(id.1), Numeral(id.2), Numeral(n)], ',');
        BranchReadsPrinted(line, Branch(id.0, id.1, id.2, Some(n)));
      }
    }
  }

  lemma DefinitionExactly(line: string, name: string)
    requires "FN:" <= line
    ensures DefinitionOf(line, name) <==> ParseDefinition(line) == Some(name)
  {
    hide ParseDefinition, Numeral;
    DefinitionReadsPrinted(line, name);
    forall n: nat ensures PrintDefinition(n, name) == "FN:" + (Numeral(n) + "," + name) {}
  }

  lemma CallExactly(line: string, name: string)
    requires "FNDA:" <= line
    ensures CallOf(line, name) <==> ParseCall(line).Some? && ParseCall(line).value.key == name
  {
    hide ParseCall, Numeral;
    if ParseCall(line).Some? {
      CallReadsPrinted(line, ParseCall(line).value);
    }
    if CallOf(line, name) {
      var n :| Exact(n) && line == "FNDA:" + (Numeral(n) + "," + name);
      CallReadsPrinted(line, Entry(name, n));
    }
  }

  lemma LinesExactly(lines: Record, total: nat, covered: nat)
    ensures LinesConsistent(lines, total, covered) <==>
              (exists numbers :: ListsLines(lines, numbers)) && total == |Matching(lines, "DA:")| &&
              covered == |Only(lines, line => ReachedLine(line))|
  {
    hide ParseExecution, ExecutionOf, Hit, Only, Matching, ReachedLine, LcovRecord.Distinct;
    var m := Matching(lines, "DA:");
    forall k, number | 0 <= k < |m|
      ensures ExecutionOf(m[k], number) <==> ParseExecution(m[k]).Some? && ParseExecution(m[k]).value.key == number
    {
      ExecutionExactly(m[k], number);
    }
    if LinesConsistent(lines, total, covered) {
      LinesCounted(lines, total, covered);
      var e :| ReadExecutions(lines, e) && Distinct(Keys(e)) && |e| == total && Hit(e) == covered;
      assert ListsLines(lines, Keys(e));
    }
    if numbers :| ListsLines(lines, numbers) {
      assert forall k :: 0 <= k < |m| ==> ExecutionOf(m[k], numbers[k]);
      var e := seq(|m|, k requires 0 <= k < |m| => ParseExecution(m[k]).value);
      assert Keys(e) == numbers;
      ExecutionsTold(lines, e);
    }
  }

  lemma DefinitionsRead(lines: Record, names: seq<string>)
    ensures var m := Matching(lines, "FN:");
            ReadDefinitions(lines, names) <==> |names| == |m| && forall k :: 0 <= k < |m| ==> DefinitionOf(m[k], names[k])
  {
    hide ParseDefinition, DefinitionOf, Matching;
    var m := Matching(lines, "FN:");
    forall k, name | 0 <= k < |m| ensures DefinitionOf(m[k], name) <==> ParseDefinition(m[k]) == Some(name) {
      DefinitionExactly(m[k], name);
    }
  }

  lemma CallsRead(lines: Record, called: seq<string>)
    ensures var m := Matching(lines, "FNDA:");
            (exists e :: ReadCalls(lines, e) && Keys(e) == called) <==>
              |called| == |m| && forall k :: 0 <= k < |m| ==> CallOf(m[k], called[k])
  {
    hide ParseCall, CallOf, Matching;
    var m := Matching(lines, "FNDA:");
    forall k, name | 0 <= k < |m| ensures CallOf(m[k], name) <==> ParseCall(m[k]).Some? && ParseCall(m[k]).value.key == name {
      CallExactly(m[k], name);
    }
    if |called| == |m| && forall k :: 0 <= k < |m| ==> CallOf(m[k], called[k]) {
      var e := seq(|m|, k requires 0 <= k < |m| => ParseCall(m[k]).value);
      assert ReadCalls(lines, e) && Keys(e) == called;
    }
  }

  lemma FunctionsExactly(lines: Record, total: nat, covered: nat)
    ensures FunctionsConsistent(lines, total, covered) <==>
              (exists names, called :: ListsFunctions(lines, names, called)) && total == |Matching(lines, "FN:")| &&
              covered == |Only(lines, line => CalledLine(line))|
  {
    hide ReadDefinitions, ReadCalls, DefinitionOf, CallOf, Hit, Only, Matching, CalledLine, LcovRecord.Distinct;
    if FunctionsConsistent(lines, total, covered) {
      FunctionsCounted(lines, total, covered);
      var names, e :| ReadDefinitions(lines, names) && ReadCalls(lines, e) && Distinct(names) && Distinct(Keys(e)) &&
        |names| == total && |e| == total && (forall n :: n in names <==> n in Keys(e)) && Hit(e) == covered;
      DefinitionsRead(lines, names);
      CallsRead(lines, Keys(e));
      assert ListsFunctions(lines, names, Keys(e));
    }
    if names, called :| ListsFunctions(lines, names, called) {
      DefinitionsRead(lines, names);
      CallsRead(lines, called);
      var e :| ReadCalls(lines, e) && Keys(e) == called;
      CallsTold(lines, e);
    }
  }

  /** The branches that the lines list. */
  lemma BranchesExactly(lines: Record)
    ensures (exists ids :: ListsBranches(lines, ids)) <==> exists b :: ReadBranches(lines, b) && Distinct(Identities(b))
  {
    hide ParseBranch, BranchOf, Matching, LcovRecord.Distinct, Identity;
    var m := Matching(lines, "BRDA:");
    forall k, id | 0 <= k < |m| ensures BranchOf(m[k], id) <==> ParseBranch(m[k]).Some? && Identity(ParseBranch(m[k]).value) == id {
      BranchExactly(m[k], id);
    }
    if b :| ReadBranches(lines, b) && Distinct(Identities(b)) {
      assert ListsBranches(lines, Identities(b));
    }
    if ids :| ListsBranches(lines, ids) {
      assert forall k :: 0 <= k < |m| ==> BranchOf(m[k], ids[k]);
      var b := seq(|m|, k requires 0 <= k < |m| => ParseBranch(m[k]).value);
      assert Identities(b) == ids;
      assert ReadBranches(lines, b);
    }
  }

  /** Branches that are printed alike are the same. */
  lemma PrintedOnce(a: Branch, b: Branch)
    requires PrintBranch(a) == PrintBranch(b)
    ensures a == b
  {
    hide Join, Numeral, PrintTaken;
    var s := [Numeral(a.line), Numeral(a.block), Numeral(a.branch), PrintTaken(a.taken)];
    var t := [Numeral(b.line), Numeral(b.block), Numeral(b.branch), PrintTaken(b.taken)];
    BranchFieldsPlain(a);
    BranchFieldsPlain(b);
    SplitJoin(s, ',');
    SplitJoin(t, ',');
    assert PrintBranch(a)[5..] == Join(s, ',') && PrintBranch(b)[5..] == Join(t, ',');
    assert s[0] == t[0] && s[1] == t[1] && s[2] == t[2] && s[3] == t[3];
    NumeralOnce(a.line, b.line);
    NumeralOnce(a.block, b.block);
    NumeralOnce(a.branch, b.branch);
    TakenOnce(a.taken, b.taken);
  }

  lemma NumeralOnce(a: nat, b: nat)
    requires Numeral(a) == Numeral(b)
    ensures a == b
  {
    NumeralValue(a);
    NumeralValue(b);
  }

  lemma TakenOnce(a: Option<nat>, b: Option<nat>)
    requires PrintTaken(a) == PrintTaken(b)
    ensures a == b
  {
    if a.Some? { NumeralPlain(a.value); }
    if b.Some? { NumeralPlain(b.value); }
    if a.Some? && b.Some? { NumeralOnce(a.value, b.value); }
  }

  lemma UncoveredExactly(lines: Record, b: seq<Branch>, c: SourceCoverage)
    requires ReadBranches(lines, b)
    ensures TakenCount(b) == |Only(lines, line => TakenLine(line))|
    ensures var m := Only(lines, UntakenLine); var u := c.uncoveredBranches;
            u == Untaken(b) <==> |m| == |u| && forall k :: 0 <= k < |m| ==> m[k] == PrintBranch(u[k])
  {
    hide ReadBranches, Untaken, TakenCount, Only, UntakenLine, TakenLine, PrintBranch;
    BranchesTold(lines, b);
    var m, u, v := Only(lines, UntakenLine), c.uncoveredBranches, Untaken(b);
    if |m| == |u| && forall k :: 0 <= k < |m| ==> m[k] == PrintBranch(u[k]) {
      forall k | 0 <= k < |u| ensures u[k] == v[k] {
        assert m[k] == PrintBranch(u[k]) == PrintBranch(v[k]);
        PrintedOnce(u[k], v[k]);
      }
    }
  }

  // ------------------------------------------------------------ the head of a record

  lemma OneValueExactly(lines: Record, prefix: string, n: nat)
    ensures OneValue(lines, prefix) == Some(n) <==> Exact(n) && Matching(lines, prefix) == [prefix + Numeral(n)]
  {
    hide Count, Matching, Numeral;
    var m := Matching(lines, prefix);
    if |m| == 1 {
      assert prefix <= m[0];
      var rest := m[0][|prefix|..];
      assert m[0] == prefix + rest;
      CountReadsNumerals(rest, n);
      assert m == [m[0]];
      assert (prefix + Numeral(n))[|prefix|..] == Numeral(n);
    }
  }

  lemma TotalsExactly(lines: Record, found: string, hit: string, c: Counter)
    ensures Lcov.Summary(lines, found, hit, c) <==> Totals(lines, found, hit, c)
  {
    hide OneValue, Matching;
    OneValueExactly(lines, hit, c.covered);
    OneValueExactly(lines, found, c.total);
  }

  lemma SourceExactly(lines: Record, cfg: Configuration, source: string)
    ensures SourceOf(lines, cfg) == Some(source) <==> NamesSource(lines, cfg, source)
  {
    hide NormalizeSource, Matching;
    var m := Matching(lines, "SF:");
    if |m| == 1 {
      assert "SF:" <= m[0];
      assert m[0] == "SF:" + m[0][3..] && m == [m[0]];
    }
    forall raw ensures ("SF:" + raw)[3..] == raw {}
  }

  lemma TestNamesExactly(lines: Record)
    ensures TestNamesValid(lines) <==> NoTestNamed(lines)
  {
    hide Matching;
    var m := Matching(lines, "TN:");
    if |m| == 1 { assert m == [m[0]] && m[0] in m; }
    assert "TN:" in ["TN:"];
  }

  /** A record is accepted, and says c, exactly when it is such a ledger. */
  lemma GivesExactly(lines: Record, cfg: Configuration, c: SourceCoverage)
    ensures Gives(lines, cfg, c) <==> Ledger(lines, cfg, c)
  {
    hide TestNamesValid, NoTestNamed, SourceOf, NamesSource, Lcov.Summary, Totals, LinesConsistent, FunctionsConsistent, ListsLines,
      ListsBranches, ListsFunctions, ReadBranches, Matching, Only, Untaken, TakenCount, PrintBranch, UntakenLine, TakenLine,
      ReachedLine, CalledLine, LcovRecord.Distinct;
    TestNamesExactly(lines);
    SourceExactly(lines, cfg, c.source);
    TotalsExactly(lines, "LF:", "LH:", c.lines);
    TotalsExactly(lines, "FNF:", "FNH:", c.functions);
    TotalsExactly(lines, "BRF:", "BRH:", c.branches);
    LinesExactly(lines, c.lines.total, c.lines.covered);
    FunctionsExactly(lines, c.functions.total, c.functions.covered);
    BranchesExactly(lines);
    RecordTold(lines, cfg, c);
    if Ledger(lines, cfg, c) {
      var b :| ReadBranches(lines, b) && Distinct(Identities(b));
      UncoveredExactly(lines, b, c);
      BranchesListed(lines, b);
      FunctionsListed(lines);
      assert BranchesConsistent(lines, b, c.branches.total, c.branches.covered);
    }
  }

  lemma BranchesListed(lines: Record, b: seq<Branch>)
    requires ReadBranches(lines, b)
    ensures |b| == |Matching(lines, "BRDA:")|
  {
    hide ParseBranch;
  }

  lemma FunctionsListed(lines: Record)
    ensures forall names, called :: ListsFunctions(lines, names, called) ==> |Matching(lines, "FN:")| == |Matching(lines, "FNDA:")|
  {
    hide DefinitionOf, CallOf;
  }

  // ------------------------------------------------------------ a report

  /** One ledger for each configured source, which is configured once and has an obligation, and for nothing else. */
  ghost predicate Ledgers(records: seq<Record>, cfg: Configuration, covs: seq<SourceCoverage>) {
    && |records| == |covs| == |cfg.sources|
    && (forall i :: 0 <= i < |records| ==> Ledger(records[i], cfg, covs[i]))
    && (forall i :: 0 <= i < |covs| ==> covs[i].source in cfg.sources)
    && (forall s :: s in cfg.sources ==> exists i :: 0 <= i < |covs| && covs[i].source == s)
    && (forall i, j :: 0 <= i < j < |cfg.sources| ==> cfg.sources[i] != cfg.sources[j])
    && (forall s :: s in cfg.obligations <==> s in cfg.sources)
  }

  /** A list that holds as many different elements as it is long has each of them once. */
  lemma EachOnce<T>(s: seq<T>, list: seq<T>)
    requires (forall i, j :: 0 <= i < j < |s| ==> s[i] != s[j]) && (forall x :: x in s ==> x in list) && |s| == |list|
    ensures forall i, j :: 0 <= i < j < |list| ==> list[i] != list[j]
  {
    forall i, j | 0 <= i < j < |list| ensures list[i] != list[j] {
      if list[i] == list[j] {
        var rest := list[..j] + list[j + 1..];
        assert rest[i] == list[i];
        forall x | x in s ensures x in rest {
          var k :| 0 <= k < |list| && list[k] == x;
          assert if k < j then rest[k] == x else if k > j then rest[k - 1] == x else rest[i] == x;
        }
        NoMoreThan(s, rest);
      }
    }
  }

  lemma {:induction false} SizeOfDistinct<T>(s: seq<T>)
    requires forall i, j :: 0 <= i < j < |s| ==> s[i] != s[j]
    ensures |set x | x in s| == |s|
  {
    if s != [] {
      var front, last := s[..|s| - 1], s[|s| - 1];
      SizeOfDistinct(front);
      assert s == front + [last];
      assert (set x | x in s) == (set x | x in front) + {last};
    }
  }

  lemma SameSize<T>(a: set<T>, b: set<T>)
    requires a <= b
    ensures |a| == |b| <==> a == b
  {
    assert b == a + (b - a) && |b| == |a| + |b - a|;
    if |a| == |b| { assert b - a == {}; }
  }

  /** Obligations are complete when the sources with an obligation are the configured ones, if these are different. */
  lemma ObligationsExactly(cfg: Configuration)
    requires forall i, j :: 0 <= i < j < |cfg.sources| ==> cfg.sources[i] != cfg.sources[j]
    ensures ObligationsComplete(cfg) <==> forall s :: s in cfg.obligations <==> s in cfg.sources
  {
    var configured := set s | s in cfg.sources;
    SizeOfDistinct(cfg.sources);
    if configured <= cfg.obligations.Keys { SameSize(configured, cfg.obligations.Keys); }
    assert |cfg.obligations| == |cfg.obligations.Keys|;
    if forall s :: s in cfg.obligations <==> s in cfg.sources { assert configured == cfg.obligations.Keys; }
  }

  function SourcesOf(covs: seq<SourceCoverage>): (r: seq<string>)
    ensures |r| == |covs| && forall i :: 0 <= i < |r| ==> r[i] == covs[i].source
  {
    seq(|covs|, i requires 0 <= i < |covs| => covs[i].source)
  }

  lemma CoversLedgers(records: seq<Record>, cfg: Configuration, covs: seq<SourceCoverage>)
    requires Covers(records, cfg, covs)
    ensures |covs| == |records| && forall i :: 0 <= i < |records| ==> Ledger(records[i], cfg, covs[i]) && covs[i].source in cfg.sources
    ensures forall i, j :: 0 <= i < j < |covs| ==> SourcesOf(covs)[i] != SourcesOf(covs)[j]
  {
    hide Gives, Ledger;
    forall i | 0 <= i < |records| ensures Ledger(records[i], cfg, covs[i]) && covs[i].source in cfg.sources {
      GivesExactly(records[i], cfg, covs[i]);
      GivenWithin(records[i], cfg, covs[i]);
    }
  }

  lemma OrderedHolds(covs: seq<SourceCoverage>, cfg: Configuration, ordered: seq<SourceCoverage>)
    requires Ordered(covs, cfg, ordered)
    ensures |covs| == |cfg.sources| && forall s: string :: s in cfg.sources ==> exists i :: 0 <= i < |covs| && covs[i].source == s
  {
    forall s: string | s in cfg.sources ensures exists i :: 0 <= i < |covs| && covs[i].source == s {
      var i :| 0 <= i < |cfg.sources| && cfg.sources[i] == s;
      assert ordered[i] in covs;
    }
  }

  lemma ReportHasLedgers(records: seq<Record>, cfg: Configuration, r: Report)
    requires Reports(records, cfg, r)
    ensures exists covs: seq<SourceCoverage> :: Ledgers(records, cfg, covs)
  {
    hide Gives, Ledger, Obligations, Sum, ObligationsComplete, Covers, Ordered;
    var covs: seq<SourceCoverage> :| Covers(records, cfg, covs) && Ordered(covs, cfg, r.sources);
    CoversLedgers(records, cfg, covs);
    OrderedHolds(covs, cfg, r.sources);
    forall s | s in SourcesOf(covs) ensures s in cfg.sources {
      var i :| 0 <= i < |covs| && SourcesOf(covs)[i] == s;
    }
    EachOnce(SourcesOf(covs), cfg.sources);
    ObligationsExactly(cfg);
    assert Ledgers(records, cfg, covs);
  }

  lemma LedgersCover(records: seq<Record>, cfg: Configuration, covs: seq<SourceCoverage>)
    requires Ledgers(records, cfg, covs)
    ensures Covers(records, cfg, covs) && ObligationsComplete(cfg)
  {
    hide Gives, Ledger, ObligationsComplete;
    forall i | 0 <= i < |records| ensures Gives(records[i], cfg, covs[i]) { GivesExactly(records[i], cfg, covs[i]); }
    forall s: string | s in cfg.sources ensures s in SourcesOf(covs) {
      var i :| 0 <= i < |covs| && covs[i].source == s;
      assert SourcesOf(covs)[i] == s;
    }
    EachOnce(cfg.sources, SourcesOf(covs));
    assert forall i, j :: 0 <= i < j < |covs| ==> SourcesOf(covs)[i] != SourcesOf(covs)[j];
    ObligationsExactly(cfg);
  }

  /** The coverage of a source. */
  ghost function CoverageFor(covs: seq<SourceCoverage>, s: string): (c: SourceCoverage)
    requires exists i :: 0 <= i < |covs| && covs[i].source == s
    ensures c in covs && c.source == s
  {
    var i :| 0 <= i < |covs| && covs[i].source == s;
    covs[i]
  }

  /** Records have a report exactly when they are the ledgers of the configured sources. */
  lemma ReportedExactly(records: seq<Record>, cfg: Configuration)
    ensures (exists r: Report :: Reports(records, cfg, r)) <==> exists covs :: Ledgers(records, cfg, covs)
  {
    hide Gives, Ledger, Obligations, Sum, Covers, ObligationsComplete, Reports;
    if r: Report :| Reports(records, cfg, r) { ReportHasLedgers(records, cfg, r); }
    if covs :| Ledgers(records, cfg, covs) {
      LedgersCover(records, cfg, covs);
      var ordered := seq(|cfg.sources|, i requires 0 <= i < |cfg.sources| =>
        assert cfg.sources[i] in cfg.sources; CoverageFor(covs, cfg.sources[i]));
      ReportFor(records, cfg, covs, ordered);
    }
  }

  lemma ReportFor(records: seq<Record>, cfg: Configuration, covs: seq<SourceCoverage>, ordered: seq<SourceCoverage>)
    requires Covers(records, cfg, covs) && ObligationsComplete(cfg) && |ordered| == |cfg.sources| == |covs|
    requires forall i :: 0 <= i < |ordered| ==> ordered[i] in covs && ordered[i].source == cfg.sources[i]
    ensures exists r: Report :: Reports(records, cfg, r)
  {
    hide Covers, Obligations, Sum;
    assert Ordered(covs, cfg, ordered);
    var r := Report(ordered, Obligations(ordered, cfg), Sum(ordered, (c: SourceCoverage) => c.lines),
                    Sum(ordered, (c: SourceCoverage) => c.functions), Sum(ordered, (c: SourceCoverage) => c.branches));
    assert Reports(records, cfg, r);
  }

  /** A text is accepted exactly when it has at most 2^25 bytes and its records are such ledgers. */
  lemma AcceptedExactly(raw: string, cfg: Configuration)
    ensures (exists r: Report :: Parses(raw, cfg, r)) <==>
              |Utf8.Encode(raw)| <= 33554432 && Records(raw).Some? && exists covs :: Ledgers(Records(raw).value, cfg, covs)
  {
    hide Reports, Ledgers, Records;
    if Records(raw).Some? {
      ReportedExactly(Records(raw).value, cfg);
      forall r: Report ensures Parses(raw, cfg, r) <==> |Utf8.Encode(raw)| <= 33554432 && Reports(Records(raw).value, cfg, r) {}
    }
  }
}
