/** The file names of the store: one name for each revision, and temporary names that no scan takes for one. */
module AssetNames {
  import opened Common
  import opened Decimal

  const NAMED_REVISIONS := 1_000_000_000_000

  function Zeros(n: nat): (r: string)
    ensures |r| == n && forall i :: 0 <= i < n ==> r[i] == '0'
  {
    seq(n, _ => '0')
  }

  /** padStart(12, "0"): longer texts stay as they are. */
  function Padded(s: string): (r: string)
    ensures |r| == if |s| < 12 then 12 else |s|
  {
    if |s| < 12 then Zeros(12 - |s|) + s else s
  }

  function GenerationName(prefix: string, revision: nat): string {
    prefix + Padded(Numeral(revision)) + ".json"
  }

  function TemporaryName(prefix: string, revision: nat, pid: nat): string {
    GenerationName(prefix, revision) + "." + Numeral(pid) + ".tmp"
  }

  predicate EndsWith(s: string, suffix: string) {
    |suffix| <= |s| && s[|s| - |suffix|..] == suffix
  }

  /** A name that the scan looks at. */
  predicate GenerationLike(prefix: string, name: string) {
    prefix <= name && EndsWith(name, ".json")
  }

  /** name.slice(prefix.length, -5). */
  function RevisionText(prefix: string, name: string): string {
    if |prefix| <= |name| - 5 then name[|prefix|..|name| - 5] else ""
  }

  predicate TwelveDigits(s: string) {
    |s| == 12 && Digits(s)
  }

  function Pow10(k: nat): nat {
    if k == 0 then 1 else 10 * Pow10(k - 1)
  }

  lemma TwelveZeros()
    ensures Pow10(12) == NAMED_REVISIONS
  {
    assert Pow10(4) == 10_000;
    assert Pow10(8) == 100_000_000;
  }

  lemma {:induction false} NumeralLength(n: nat, k: nat)
    requires k >= 1
    ensures |Numeral(n)| <= k <==> n < Pow10(k)
  {
    if k == 1 {
      assert Pow10(1) == 10;
    } else if n >= 10 {
      NumeralLength(n / 10, k - 1);
    } else {
      PowGrows(k);
    }
  }

  lemma {:induction false} PowGrows(k: nat)
    requires k >= 1
    ensures Pow10(k) >= 10
  {
    if k == 1 {
      assert Pow10(1) == 10;
    } else {
      PowGrows(k - 1);
    }
  }

  lemma {:induction false} LeadingZeros(n: nat, s: string)
    requires Digits(s)
    ensures Digits(Zeros(n) + s) && Value(Zeros(n) + s) == Value(s)
    decreases |s|, n
  {
    var t := Zeros(n) + s;
    if s != [] {
      LeadingZeros(n, s[..|s| - 1]);
      assert t[..|t| - 1] == Zeros(n) + s[..|s| - 1];
    } else if n > 0 {
      LeadingZeros(n - 1, s);
      assert t[..|t| - 1] == Zeros(n - 1) + s && DigitValue('0') == 0;
    } else {
      assert t == s;
    }
  }

  lemma PaddedValue(n: nat)
    ensures Digits(Padded(Numeral(n))) && Value(Padded(Numeral(n))) == n
  {
    NumeralValue(n);
    if |Numeral(n)| < 12 { LeadingZeros(12 - |Numeral(n)|, Numeral(n)); }
  }

  /** What the scan reads in a generation name: the revision, when it is below 10^12, and a malformed text
      for every greater revision. */
  lemma GenerationReadBack(prefix: string, n: nat)
    ensures var name := GenerationName(prefix, n);
            GenerationLike(prefix, name) && RevisionText(prefix, name) == Padded(Numeral(n)) &&
            (TwelveDigits(RevisionText(prefix, name)) <==> n < NAMED_REVISIONS) &&
            Digits(RevisionText(prefix, name)) && Value(RevisionText(prefix, name)) == n
  {
    var name := GenerationName(prefix, n);
    assert name[|name| - 5..] == ".json";
    assert name[|prefix|..|name| - 5] == Padded(Numeral(n));
    PaddedValue(n);
    TwelveZeros();
    NumeralLength(n, 12);
  }

  /** No two revisions share a name. */
  lemma NamesInjective(prefix: string, n: nat, m: nat)
    requires GenerationName(prefix, n) == GenerationName(prefix, m)
    ensures n == m
  {
    GenerationReadBack(prefix, n);
    GenerationReadBack(prefix, m);
  }

  /** A temporary file is never taken for a generation. */
  lemma TemporaryIgnored(prefix: string, n: nat, pid: nat)
    ensures !GenerationLike(prefix, TemporaryName(prefix, n, pid))
  {
    var name := TemporaryName(prefix, n, pid);
    assert name[|name| - 5..][4] == 'p' && ".json"[4] == 'n';
  }

  /** What follows the prefix of a name up to the first character that is not a digit. */
  lemma FirstDigits(prefix: string, a: string, b: string, r: string, t: string)
    requires Digits(a) && Digits(b) && r != [] && t != [] && !('0' <= r[0] <= '9') && !('0' <= t[0] <= '9')
    requires prefix + a + r == prefix + b + t
    ensures a == b && r == t
  {
    var n, whole := |prefix|, prefix + a + r;
    assert whole[n + |a|] == r[0] && whole[n + |b|] == t[0];
    assert forall i :: 0 <= i < |a| ==> whole[n + i] == a[i] && '0' <= a[i] <= '9';
    assert forall i :: 0 <= i < |b| ==> whole[n + i] == b[i] && '0' <= b[i] <= '9';
    assert |a| == |b|;
    assert a == whole[n..n + |a|] == b;
    assert r == whole[n + |a|..] == t;
  }

  lemma TemporaryParts(prefix: string, n: nat, pid: nat)
    ensures TemporaryName(prefix, n, pid) == prefix + Padded(Numeral(n)) + (".json." + Numeral(pid) + ".tmp")
  {
    hide Padded, Numeral;
    assert ".json" + "." == ".json.";
  }

  /** The temporary files of different processes or for different revisions have different names. */
  lemma TemporariesDiffer(prefix: string, n: nat, pid: nat, m: nat, other: nat)
    requires TemporaryName(prefix, n, pid) == TemporaryName(prefix, m, other)
    ensures n == m && pid == other
  {
    hide Padded, Numeral, TemporaryName, Digits, Value;
    PaddedValue(n);
    PaddedValue(m);
    NumeralValue(pid);
    NumeralValue(other);
    TemporaryParts(prefix, n, pid);
    TemporaryParts(prefix, m, other);
    FirstDigits(prefix, Padded(Numeral(n)), Padded(Numeral(m)), ".json." + Numeral(pid) + ".tmp", ".json." + Numeral(other) + ".tmp");
    FirstDigits(".json.", Numeral(pid), Numeral(other), ".tmp", ".tmp");
  }

  /** The order of a directory listing. */
  predicate Before(a: string, b: string) {
    if a == [] then b != []
    else b != [] && (a[0] < b[0] || (a[0] == b[0] && Before(a[1..], b[1..])))
  }

  lemma {:induction false} BeforeCommon(p: string, a: string, b: string)
    ensures Before(p + a, p + b) <==> Before(a, b)
  {
    if p == [] {
      assert p + a == a && p + b == b;
    } else {
      BeforeCommon(p[1..], a, b);
      assert (p + a)[1..] == p[1..] + a && (p + b)[1..] == p[1..] + b;
    }
  }

  lemma {:induction false} BeforeSuffix(a: string, b: string, s: string)
    requires |a| == |b|
    ensures Before(a + s, b + s) <==> Before(a, b)
  {
    if a == [] {
      assert a + s == s && b + s == s;
      NotBeforeItself(s);
    } else {
      BeforeSuffix(a[1..], b[1..], s);
      assert (a + s)[1..] == a[1..] + s && (b + s)[1..] == b[1..] + s;
    }
  }

  lemma {:induction false} NotBeforeItself(s: string)
    ensures !Before(s, s)
  {
    if s != [] { NotBeforeItself(s[1..]); }
  }

  lemma {:induction false} BeforeSnoc(a: string, b: string, c: char, d: char)
    requires |a| == |b|
    ensures Before(a + [c], b + [d]) <==> Before(a, b) || (a == b && c < d)
  {
    if a == [] {
      assert a + [c] == [c] && b + [d] == [d];
      assert [c][1..] == [] && [d][1..] == [];
    } else {
      BeforeSnoc(a[1..], b[1..], c, d);
      assert (a + [c])[1..] == a[1..] + [c] && (b + [d])[1..] == b[1..] + [d];
      assert a == [a[0]] + a[1..] && b == [b[0]] + b[1..];
    }
  }

  lemma {:induction false} DigitsOrder(a: string, b: string)
    requires |a| == |b| && Digits(a) && Digits(b)
    ensures (Before(a, b) <==> Value(a) < Value(b)) && (a == b <==> Value(a) == Value(b))
  {
    if a != [] {
      var f, g := a[..|a| - 1], b[..|b| - 1];
      DigitsOrder(f, g);
      assert a == f + [a[|a| - 1]] && b == g + [b[|b| - 1]];
      BeforeSnoc(f, g, a[|a| - 1], b[|b| - 1]);
    }
  }

  /** Below 10^12 the order of the names is the order of the revisions. */
  lemma NamesOrdered(prefix: string, n: nat, m: nat)
    requires n < NAMED_REVISIONS && m < NAMED_REVISIONS
    ensures Before(GenerationName(prefix, n), GenerationName(prefix, m)) <==> n < m
  {
    hide Before, GenerationLike, RevisionText, Padded, Digits;
    var a, b := Padded(Numeral(n)), Padded(Numeral(m));
    GenerationReadBack(prefix, n);
    GenerationReadBack(prefix, m);
    DigitsOrder(a, b);
    BeforeSuffix(a, b, ".json");
    assert prefix + a + ".json" == prefix + (a + ".json") && prefix + b + ".json" == prefix + (b + ".json");
    BeforeCommon(prefix, a + ".json", b + ".json");
  }
}
