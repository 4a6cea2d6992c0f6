/** The source path of a record: a path that names a configured source without leaving the repository. */
module LcovSource {
  import opened Common
  import opened Text

  /** replaceAll("\\", "/"). */
  function Slashes(s: string): (r: string)
    ensures |r| == |s| && forall i :: 0 <= i < |s| ==> r[i] == (if s[i] == '\\' then '/' else s[i])
  {
    seq(|s|, i requires 0 <= i < |s| => if s[i] == '\\' then '/' else s[i])
  }

  predicate Plain(segment: string) {
    segment != "" && segment != "." && segment != ".." && '/' !in segment
  }

  predicate AllPlain(segments: seq<string>) {
    forall s :: s in segments ==> Plain(s)
  }

  /** path.resolve, segment by segment; above the root there is nothing to leave. */
  function Resolve(base: seq<string>, segments: seq<string>): seq<string>
    decreases |segments|
  {
    if segments == [] then base
    else if segments[0] == "" || segments[0] == "." then Resolve(base, segments[1..])
    else if segments[0] == ".." then Resolve(if base == [] then [] else base[..|base| - 1], segments[1..])
    else Resolve(base + [segments[0]], segments[1..])
  }

  function Shared(a: seq<string>, b: seq<string>): (n: nat)
    ensures n <= |a| && n <= |b| && a[..n] == b[..n]
  {
    if a == [] || b == [] || a[0] != b[0] then 0 else 1 + Shared(a[1..], b[1..])
  }

  function Ups(n: nat): (r: seq<string>)
    ensures |r| == n && forall i :: 0 <= i < n ==> r[i] == ".."
  {
    seq(n, _ => "..")
  }

  /** path.relative on resolved paths. */
  function Relative(from: seq<string>, to: seq<string>): seq<string> {
    var n := Shared(from, to);
    Ups(|from| - n) + to[n..]
  }

  /** normalizeSource, on a host whose absolute paths start with a slash. */
  function NormalizeSource(raw: string, sources: seq<string>, root: seq<string>): Option<string> {
    if raw == "" || '\0' in raw || raw[0] == '/' then None
    else
      var normalized := Slashes(raw);
      var relative := Join(Relative(root, Resolve(root, Split(normalized, '/'))), '/');
      if relative != normalized || "../" <= relative || relative !in sources then None else Some(relative)
  }

  lemma {:induction false} ResolvePlain(base: seq<string>, segments: seq<string>)
    requires AllPlain(base) && Separated(segments, '/')
    ensures AllPlain(Resolve(base, segments))
    decreases |segments|
  {
    if segments != [] {
      var s := segments[0];
      assert s in segments;
      assert Separated(segments[1..], '/');
      if s == "" || s == "." {
        ResolvePlain(base, segments[1..]);
      } else if s == ".." {
        ResolvePlain(if base == [] then [] else base[..|base| - 1], segments[1..]);
      } else {
        ResolvePlain(base + [s], segments[1..]);
      }
    }
  }

  lemma {:induction false} ResolveAppends(base: seq<string>, segments: seq<string>)
    requires AllPlain(segments)
    ensures Resolve(base, segments) == base + segments
    decreases |segments|
  {
    if segments == [] {
      assert base + segments == base;
    } else {
      assert Plain(segments[0]);
      ResolveAppends(base + [segments[0]], segments[1..]);
      assert (base + [segments[0]]) + segments[1..] == base + segments;
    }
  }

  lemma {:induction false} SharedOfExtension(a: seq<string>, b: seq<string>)
    ensures Shared(a, a + b) == |a|
  {
    if a != [] {
      assert (a + b)[1..] == a[1..] + b;
      SharedOfExtension(a[1..], b);
    }
  }

  /** A source is accepted exactly when, with slashes for backslashes, it is a configured source that is
      relative and either has only plain segments or is the parent of the repository itself: no accepted
      path can reach a file outside of the repository. */
  lemma AcceptedSources(raw: string, sources: seq<string>, root: seq<string>)
    requires AllPlain(root) && root != []
    ensures NormalizeSource(raw, sources, root).Some? ==>
              NormalizeSource(raw, sources, root) == Some(Slashes(raw)) && Slashes(raw) in sources && '\0' !in raw && raw[0] != '/' &&
              (AllPlain(Split(Slashes(raw), '/')) || Slashes(raw) == "..")
    ensures '\0' !in raw && Slashes(raw) in sources && AllPlain(Split(Slashes(raw), '/')) ==>
              NormalizeSource(raw, sources, root) == Some(Slashes(raw))
  {
    var normalized := Slashes(raw);
    var segments := Split(normalized, '/');
    JoinSplit(normalized, '/');
    if NormalizeSource(raw, sources, root).Some? {
      RelativeSegments(normalized, root);
    }
    if AllPlain(segments) {
      ResolveAppends(root, segments);
      SharedOfExtension(root, segments);
      assert Relative(root, root + segments) == [] + (root + segments)[|root|..] == segments;
      PlainStart(normalized);
    }
  }

  lemma FirstSegment(s: string)
    ensures s == "" || s[0] == '/' ==> Split(s, '/')[0] == ""
    ensures "../" <= s ==> Split(s, '/')[0] == ".."
  {
    if "../" <= s {
      assert s == ".." + s[2..] && s[2] == '/';
      SplitPrefix("..", s[2..], '/');
      assert Split(s[2..], '/')[0] == [] && ".." + [] == "..";
    }
  }

  lemma PlainStart(s: string)
    requires AllPlain(Split(s, '/'))
    ensures s != "" && s[0] != '/' && !("../" <= s)
  {
    FirstSegment(s);
    assert Plain(Split(s, '/')[0]);
  }

  lemma UpsStart(parts: seq<string>)
    requires |parts| >= 2 && parts[0] == ".."
    ensures "../" <= Join(parts, '/')
  {
    assert Join(parts, '/') == ".." + ['/'] + Join(parts[1..], '/');
  }

  lemma RelativeSegments(s: string, root: seq<string>)
    requires s != "" && AllPlain(root)
    requires Join(Relative(root, Resolve(root, Split(s, '/'))), '/') == s && !("../" <= s)
    ensures AllPlain(Split(s, '/')) || s == ".."
  {
    var segments := Split(s, '/');
    JoinSplit(s, '/');
    var to := Resolve(root, segments);
    ResolvePlain(root, segments);
    var n := Shared(root, to);
    var parts := Relative(root, to);
    assert forall p :: p in to[n..] ==> p in to;
    forall p | p in parts ensures '/' !in p {
      assert p in Ups(|root| - n) || p in to;
    }
    SplitJoin(parts, '/');
    assert segments == parts;
    if n < |root| {
      assert parts[0] == Ups(|root| - n)[0];
      if |parts| >= 2 { UpsStart(parts); }
    }
  }
}
