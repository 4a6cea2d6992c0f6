/** The report does not depend on the order of the records, and nothing that it counts is lost or made up. */
module LcovProperties {
  import opened Common
  import opened Text
  import opened LcovText
  import opened LcovRecord
  import opened Lcov
  import Utf8

  // ------------------------------------------------------------ order

  lemma {:induction false} DistinctOnce<T>(s: seq<T>, x: T)
    requires Distinct(s)
    ensures multiset(s)[x] <= 1
  {
    if s != [] {
      var front := s[..|s| - 1];
      assert s == front + [s[|s| - 1]];
      DistinctOnce(front, x);
    }
  }

  lemma DistinctPermuted<T>(s: seq<T>, t: seq<T>)
    requires Distinct(s) && multiset(s) == multiset(t)
    ensures Distinct(t)
  {
    forall i, j | 0 <= i < j < |t| ensures t[i] != t[j] {
      DistinctOnce(s, t[i]);
      assert t == t[..j] + t[j..];
      assert t[i] in t[..j] && t[j] in t[j..];
    }
  }

  lemma PermutedMembers<T>(s: seq<T>, t: seq<T>)
    requires multiset(s) == multiset(t)
    ensures |s| == |t| && forall x :: x in s <==> x in t
  {
    assert |multiset(s)| == |s| && |multiset(t)| == |t|;
    assert forall x :: x in s <==> x in multiset(s);
    assert forall x :: x in t <==> x in multiset(t);
  }

  lemma CoveredRecordsDistinct(records: seq<Record>, cfg: Configuration, covs: seq<SourceCoverage>)
    requires Covers(records, cfg, covs)
    ensures Distinct(records)
  {
    hide Gives;
    forall i, j | 0 <= i < j < |records| ensures records[i] != records[j] {
      if records[i] == records[j] { GivesOne(records[i], cfg, covs[i], covs[j]); }
    }
  }

  function IndexOf<T(==)>(s: seq<T>, x: T): (i: nat)
    requires x in s
    ensures i < |s| && s[i] == x
  {
    if s[0] == x then 0 else 1 + IndexOf(s[1..], x)
  }

  /** Permuted records are covered by the same coverages, rearranged. */
  lemma CoversPermuted(records: seq<Record>, permuted: seq<Record>, cfg: Configuration, covs: seq<SourceCoverage>)
    returns (other: seq<SourceCoverage>)
    requires Covers(records, cfg, covs) && multiset(records) == multiset(permuted)
    ensures Covers(permuted, cfg, other)
    ensures |other| == |covs| && forall c :: c in covs ==> c in other
  {
    hide Gives;
    CoveredRecordsDistinct(records, cfg, covs);
    DistinctPermuted(records, permuted);
    PermutedMembers(records, permuted);
    assert forall i :: 0 <= i < |permuted| ==> permuted[i] in records;
    other := seq(|permuted|, i requires 0 <= i < |permuted| => covs[IndexOf(records, permuted[i])]);
    forall i, j | 0 <= i < j < |other| ensures other[i].source != other[j].source {
      assert permuted[i] != permuted[j];
    }
    forall c | c in covs ensures c in other {
      var k :| 0 <= k < |covs| && covs[k] == c;
      assert records[k] in permuted;
      var i :| 0 <= i < |permuted| && permuted[i] == records[k];
      assert IndexOf(records, permuted[i]) == k && other[i] == c;
    }
  }

  /** Permuting the records changes neither whether they are accepted nor what is reported. */
  lemma OrderIndependent(records: seq<Record>, permuted: seq<Record>, cfg: Configuration, r: Report)
    requires multiset(records) == multiset(permuted)
    ensures Reports(records, cfg, r) <==> Reports(permuted, cfg, r)
  {
    hide Gives, Obligations, Sum;
    if Reports(records, cfg, r) { OrderIrrelevant(records, permuted, cfg, r); }
    if Reports(permuted, cfg, r) { OrderIrrelevant(permuted, records, cfg, r); }
  }

  lemma OrderIrrelevant(records: seq<Record>, permuted: seq<Record>, cfg: Configuration, r: Report)
    requires multiset(records) == multiset(permuted) && Reports(records, cfg, r)
    ensures Reports(permuted, cfg, r)
  {
    hide Gives, Obligations, Sum, Covers;
    var covs :| Covers(records, cfg, covs) && Ordered(covs, cfg, r.sources);
    var other := CoversPermuted(records, permuted, cfg, covs);
    assert Ordered(other, cfg, r.sources);
  }

  /** One input gives one report. */
  lemma OneReport(records: seq<Record>, cfg: Configuration, r: Report, q: Report)
    requires Reports(records, cfg, r) && Reports(records, cfg, q)
    ensures r == q
  {
    hide Gives, Obligations, Sum;
    var covs :| Covers(records, cfg, covs) && Ordered(covs, cfg, r.sources);
    ReportedSources(records, cfg, covs, q);
    forall i | 0 <= i < |cfg.sources| ensures r.sources[i] == q.sources[i] {
      var j :| 0 <= j < |covs| && covs[j] == r.sources[i];
      var k :| 0 <= k < |covs| && covs[k] == q.sources[i];
    }
    assert r.sources == q.sources;
  }

  /** Two inputs within the byte limit whose records are permutations of each other, whatever their line ends,
      are both refused or both accepted with the same report. */
  lemma PermutedInputsAgree(raw: string, other: string, cfg: Configuration, r: Report)
    requires Records(raw).Some? && Records(other).Some? && multiset(Records(raw).value) == multiset(Records(other).value)
    requires |Utf8.Encode(raw)| <= MAXIMUM_LCOV_BYTES && |Utf8.Encode(other)| <= MAXIMUM_LCOV_BYTES
    ensures Parses(raw, cfg, r) <==> Parses(other, cfg, r)
  {
    hide Records;
    OrderIndependent(Records(raw).value, Records(other).value, cfg, r);
  }

  // ------------------------------------------------------------ conservation

  lemma {:induction false} SumWithout(covs: seq<SourceCoverage>, i: nat, key: SourceCoverage -> Counter)
    requires i < |covs|
    ensures var rest := Sum(covs[..i] + covs[i + 1..], key);
            Sum(covs, key) == Counter(rest.covered + key(covs[i]).covered, rest.total + key(covs[i]).total)
  {
    hide Sum;
    var n := |covs|;
    var front := covs[..n - 1];
    assert covs == front + [covs[n - 1]];
    SumSnoc(front, covs[n - 1], key);
    if i == n - 1 {
      assert covs[..i] + covs[i + 1..] == front;
    } else {
      SumWithout(front, i, key);
      assert covs[..i] + covs[i + 1..] == (front[..i] + front[i + 1..]) + [covs[n - 1]];
      SumSnoc(front[..i] + front[i + 1..], covs[n - 1], key);
    }
  }

  lemma SumSnoc(covs: seq<SourceCoverage>, c: SourceCoverage, key: SourceCoverage -> Counter)
    ensures var before := Sum(covs, key);
            Sum(covs + [c], key) == Counter(before.covered + key(c).covered, before.total + key(c).total)
  {
    assert (covs + [c])[..|covs|] == covs;
  }

  /** The same elements, each once, have the same sum in any order. */
  lemma {:induction false} SumOfSameElements(a: seq<SourceCoverage>, b: seq<SourceCoverage>, key: SourceCoverage -> Counter)
    requires Distinct(a) && |a| == |b| && (forall c :: c in a ==> c in b)
    ensures Sum(a, key) == Sum(b, key)
  {
    if a != [] {
      var front, last := a[..|a| - 1], a[|a| - 1];
      assert a == front + [last];
      assert last in a && last in b;
      var i :| 0 <= i < |b| && b[i] == last;
      OthersStay(front, last, b, i);
      SumOfSameElements(front, b[..i] + b[i + 1..], key);
      SumWithout(b, i, key);
    }
  }

  lemma OthersStay(front: seq<SourceCoverage>, last: SourceCoverage, b: seq<SourceCoverage>, i: nat)
    requires i < |b| && b[i] == last && last !in front && forall c :: c in front ==> c in b
    ensures forall c :: c in front ==> c in b[..i] + b[i + 1..]
  {
    var rest := b[..i] + b[i + 1..];
    forall c | c in front ensures c in rest {
      var j :| 0 <= j < |b| && b[j] == c;
      assert if j < i then rest[j] == c else rest[j - 1] == c;
    }
  }

  lemma {:induction false} MatchingConcat(a: seq<string>, b: seq<string>, prefix: string)
    ensures Matching(a + b, prefix) == Matching(a, prefix) + Matching(b, prefix)
  {
    if b == [] {
      assert a + b == a && Matching(a, prefix) + [] == Matching(a, prefix);
    } else {
      MatchingConcat(a, b[..|b| - 1], prefix);
      assert (a + b)[..|a + b| - 1] == a + b[..|b| - 1];
    }
  }

  lemma {:induction false} MatchingFlat(records: seq<Record>, prefix: string)
    requires records != [] && !(prefix <= END)
    ensures |Matching(Flat(records), prefix)| ==
              |Matching(Flat(records[..|records| - 1]), prefix)| + |Matching(records[|records| - 1], prefix)|
  {
    var n := |records|;
    FlatSnoc(records);
    MatchingConcat(Flat(records[..n - 1]), records[n - 1] + [END], prefix);
    MatchingConcat(records[n - 1], [END], prefix);
    assert Matching([END][..0], prefix) == [];
    assert Matching([END], prefix) == [];
  }

  lemma NotRecordEnd()
    ensures !("DA:" <= END) && !("FN:" <= END) && !("FNDA:" <= END) && !("BRDA:" <= END)
  {
    assert END[0] == 'e' && "DA:"[0] == 'D' && "FN:"[0] == 'F' && "FNDA:"[0] == 'F' && "BRDA:"[0] == 'B';
  }

  lemma {:induction false} FlatSnoc(records: seq<Record>)
    requires records != []
    ensures Flat(records) == Flat(records[..|records| - 1]) + (records[|records| - 1] + [END])
  {
    var n := |records|;
    if n == 1 {
      assert Flat(records[1..]) == [] && Flat(records[..0]) == [];
    } else {
      FlatSnoc(records[1..]);
      assert records[1..][..n - 2] == records[..n - 1][1..];
    }
  }

  lemma NoRecords()
    ensures forall prefix :: Matching(Flat([]), prefix) == []
  {
  }

  /** A total of all coverages is the number of lines with the prefix in all records. */
  lemma {:induction false} TotalsCountLines(records: seq<Record>, cfg: Configuration, covs: seq<SourceCoverage>)
    requires |covs| == |records| && forall i :: 0 <= i < |records| ==> Gives(records[i], cfg, covs[i])
    ensures Sum(covs, (c: SourceCoverage) => c.lines).total == |Matching(Flat(records), "DA:")|
    ensures Sum(covs, (c: SourceCoverage) => c.functions).total == |Matching(Flat(records), "FN:")|
    ensures |Matching(Flat(records), "FN:")| == |Matching(Flat(records), "FNDA:")|
    ensures Sum(covs, (c: SourceCoverage) => c.branches).total == |Matching(Flat(records), "BRDA:")|
  {
    hide Gives, Matching, Flat;
    if records == [] {
      NoRecords();
    } else {
      var n := |records|;
      TotalsCountLines(records[..n - 1], cfg, covs[..n - 1]);
      GivenTotalsCountLines(records[n - 1], cfg, covs[n - 1]);
      NotRecordEnd();
      MatchingFlat(records, "DA:");
      MatchingFlat(records, "FN:");
      MatchingFlat(records, "FNDA:");
      MatchingFlat(records, "BRDA:");
    }
  }

  lemma {:induction false} ObligationsAreUntaken(ordered: seq<SourceCoverage>, cfg: Configuration)
    requires forall c :: c in ordered ==> c.source in cfg.obligations
    requires forall c :: c in ordered ==> |c.uncoveredBranches| == c.branches.total - c.branches.covered
    ensures var s := Sum(ordered, (c: SourceCoverage) => c.branches);
            |Obligations(ordered, cfg)| == s.total - s.covered
  {
    if ordered != [] {
      var front := ordered[..|ordered| - 1];
      assert ordered == front + [ordered[|ordered| - 1]];
      ObligationsAreUntaken(front, cfg);
    }
  }

  lemma MatchingCons(lines: seq<string>, prefix: string)
    requires lines != []
    ensures |Matching(lines, prefix)| == (if prefix <= lines[0] then 1 else 0) + |Matching(lines[1..], prefix)|
  {
    assert lines == [lines[0]] + lines[1..];
    MatchingConcat([lines[0]], lines[1..], prefix);
    assert [lines[0]][..0] == [];
    assert Matching([lines[0]][..0], prefix) == [];
  }

  /** Every matching line costs at least the length of its prefix. */
  lemma {:induction false} MatchingCost(lines: seq<string>, prefix: string, sep: char)
    ensures |prefix| * |Matching(lines, prefix)| <= |Join(lines, sep)|
  {
    hide Matching;
    if lines == [] {
      NoneMatch(prefix);
    } else {
      MatchingCost(lines[1..], prefix, sep);
      MatchingCons(lines, prefix);
      assert |Join(lines, sep)| >= |lines[0]| + |Join(lines[1..], sep)|;
      if prefix <= lines[0] {
        var m := |Matching(lines[1..], prefix)|;
        assert |prefix| * (1 + m) == |prefix| + |prefix| * m;
      }
    }
  }

  lemma NoneMatch(prefix: string)
    ensures Matching([], prefix) == []
  {
  }

  lemma {:induction false} SumPrefix(covs: seq<SourceCoverage>, k: nat, key: SourceCoverage -> Counter)
    requires k <= |covs|
    ensures Sum(covs[..k], key).total <= Sum(covs, key).total && Sum(covs[..k], key).covered <= Sum(covs, key).covered
    decreases |covs| - k
  {
    if k == |covs| {
      assert covs[..k] == covs;
    } else {
      SumPrefix(covs, k + 1, key);
      assert covs[..k + 1][..k] == covs[..k];
    }
  }

  ghost predicate ExactSum(ordered: seq<SourceCoverage>, key: SourceCoverage -> Counter, n: nat) {
    Sum(ordered, key).total == n &&
    forall k :: 0 <= k <= |ordered| ==>
      Sum(ordered[..k], key).total < 0x200_0000 && Sum(ordered[..k], key).covered < 0x200_0000
  }

  lemma SumBelow(ordered: seq<SourceCoverage>, key: SourceCoverage -> Counter, n: nat)
    requires Sum(ordered, key).total == n < 0x200_0000
    requires forall c :: c in ordered ==> key(c).covered <= key(c).total
    ensures ExactSum(ordered, key, n)
  {
    hide Sum;
    forall k | 0 <= k <= |ordered|
      ensures Sum(ordered[..k], key).total < 0x200_0000 && Sum(ordered[..k], key).covered < 0x200_0000
    {
      SumPrefix(ordered, k, key);
      CoveredWithinTotal(ordered[..k], key);
    }
  }

  lemma {:induction false} CoveredWithinTotal(covs: seq<SourceCoverage>, key: SourceCoverage -> Counter)
    requires forall c :: c in covs ==> key(c).covered <= key(c).total
    ensures Sum(covs, key).covered <= Sum(covs, key).total
  {
    if covs != [] {
      assert covs == covs[..|covs| - 1] + [covs[|covs| - 1]];
      CoveredWithinTotal(covs[..|covs| - 1], key);
    }
  }

  /** In an accepted report the totals count the DA, FN and BRDA lines of the input, each FN line has its FNDA
      line, there is one obligation for each branch that is not covered, and all sums, finished or partial,
      stay below 2^25, far within the integers that a double adds exactly. */
  lemma Conservation(raw: string, cfg: Configuration, r: Report)
    requires Parses(raw, cfg, r)
    ensures var lines := Split(Unix(raw), '\n');
            ExactSum(r.sources, (c: SourceCoverage) => c.lines, |Matching(lines, "DA:")|) &&
            ExactSum(r.sources, (c: SourceCoverage) => c.functions, |Matching(lines, "FN:")|) &&
            |Matching(lines, "FNDA:")| == |Matching(lines, "FN:")| &&
            ExactSum(r.sources, (c: SourceCoverage) => c.branches, |Matching(lines, "BRDA:")|)
    ensures |r.uncovered| == r.branches.total - r.branches.covered
  {
    hide Gives, Sum, ExactSum, Obligations, RecordsFrom;
    var records, lines := Records(raw).value, Split(Unix(raw), '\n');
    var covs :| Covers(records, cfg, covs) && Ordered(covs, cfg, r.sources);
    RecordLines(raw, "DA:");
    RecordLines(raw, "FN:");
    RecordLines(raw, "FNDA:");
    RecordLines(raw, "BRDA:");
    TotalsCountLines(records, cfg, covs);
    OrderedSums(records, cfg, covs, r.sources);
    SumBelow(r.sources, (c: SourceCoverage) => c.lines, |Matching(lines, "DA:")|);
    SumBelow(r.sources, (c: SourceCoverage) => c.functions, |Matching(lines, "FN:")|);
    SumBelow(r.sources, (c: SourceCoverage) => c.branches, |Matching(lines, "BRDA:")|);
    ObligationsAreUntaken(r.sources, cfg);
  }

  lemma NoMatchInEmptyLine(prefix: string)
    requires prefix != ""
    ensures Matching([""], prefix) == []
  {
    assert [""][..0] == [];
    assert Matching([""][..0], prefix) == [];
  }

  lemma MatchingPrinted(lines: seq<string>, flat: seq<string>, prefix: string)
    requires prefix != "" && (lines == flat || lines == flat + [[]])
    ensures |Matching(lines, prefix)| == |Matching(flat, prefix)|
  {
    hide Matching;
    MatchingConcat(flat, [[]], prefix);
    NoMatchInEmptyLine(prefix);
  }

  lemma MatchingBelow(text: string, prefix: string)
    requires |text| <= MAXIMUM_LCOV_BYTES && |prefix| >= 3
    ensures |Matching(Split(text, '\n'), prefix)| < 0x200_0000
  {
    hide Matching, Split, Join;
    JoinSplit(text, '\n');
    var n := |Matching(Split(text, '\n'), prefix)|;
    MatchingCost(Split(text, '\n'), prefix, '\n');
    assert n * 3 <= |prefix| * n;
  }

  /** The lines of the records are the lines of the text, but for the record ends. */
  lemma RecordLines(raw: string, prefix: string)
    requires Records(raw).Some? && |Utf8.Encode(raw)| <= MAXIMUM_LCOV_BYTES && |prefix| >= 3
    ensures var lines := Split(Unix(raw), '\n');
            |Matching(lines, prefix)| == |Matching(Flat(Records(raw).value), prefix)| < 0x200_0000
  {
    hide RecordsFrom, Unix, Split, Matching, Flat, Join, Utf8.Encode;
    var lines, records := Split(Unix(raw), '\n'), Records(raw).value;
    JoinSplit(Unix(raw), '\n');
    AcceptedIsPrinted(lines, [], records);
    assert [] + lines == lines;
    MatchingPrinted(lines, Flat(records), prefix);
    MatchingBelow(Unix(raw), prefix);
  }

  lemma OrderedSums(records: seq<Record>, cfg: Configuration, covs: seq<SourceCoverage>, ordered: seq<SourceCoverage>)
    requires Covers(records, cfg, covs) && Ordered(covs, cfg, ordered)
    ensures Sum(ordered, (c: SourceCoverage) => c.lines) == Sum(covs, (c: SourceCoverage) => c.lines)
    ensures Sum(ordered, (c: SourceCoverage) => c.functions) == Sum(covs, (c: SourceCoverage) => c.functions)
    ensures Sum(ordered, (c: SourceCoverage) => c.branches) == Sum(covs, (c: SourceCoverage) => c.branches)
    ensures forall c :: c in ordered ==>
              c.lines.covered <= c.lines.total && c.functions.covered <= c.functions.total &&
              c.branches.covered <= c.branches.total && |c.uncoveredBranches| == c.branches.total - c.branches.covered
  {
    hide Gives, Sum;
    forall c | c in covs ensures c in ordered {
      var k :| 0 <= k < |covs| && covs[k] == c;
      GivenWithin(records[k], cfg, c);
      var i :| 0 <= i < |cfg.sources| && cfg.sources[i] == c.source;
      var j :| 0 <= j < |covs| && covs[j] == ordered[i];
      assert j == k;
    }
    SumOfSameElements(covs, ordered, (c: SourceCoverage) => c.lines);
    SumOfSameElements(covs, ordered, (c: SourceCoverage) => c.functions);
    SumOfSameElements(covs, ordered, (c: SourceCoverage) => c.branches);
    forall c | c in ordered
      ensures c.lines.covered <= c.lines.total && c.functions.covered <= c.functions.total &&
              c.branches.covered <= c.branches.total && |c.uncoveredBranches| == c.branches.total - c.branches.covered
    {
      var k :| 0 <= k < |covs| && covs[k] == c;
      GivenTotalsCountLines(records[k], cfg, c);
      GivenWithin(records[k], cfg, c);
    }
  }
}
