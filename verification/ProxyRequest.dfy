/**
 Reading a CONNECT request (section 9.3.6 of RFC 9110) with an authority-form target (section 3.2.3 of RFC 9112)
 from a connection that delivers its bytes in arbitrary pieces.
 */
module ProxyRequest {
  import opened Common
  import opened Text

  const MAXIMUM_HEADER_BYTES := 8192
  const DELIMITER: seq<byte> := [13, 10, 13, 10]

  datatype Error =
    | RequestIncomplete | RequestTooLarge | RequestNonAscii | RequestInvalid | ConnectRequired
    | HttpVersionInvalid | AuthorityInvalid | HeaderInvalid

  datatype Result<T> = Ok(value: T) | Err(error: Error)

  datatype Request = Request(hostname: string, headers: map<string, string>, remainder: seq<byte>)

  // ------------------------------------------------------------ the delimiter

  predicate DelimiterAt(b: seq<byte>, i: nat) {
    i + 4 <= |b| && b[i..i + 4] == DELIMITER
  }

  predicate Delimited(b: seq<byte>) {
    exists i :: 0 <= i <= |b| - 4 && DelimiterAt(b, i)
  }

  /** The position of the first delimiter. */
  function HeaderLength(b: seq<byte>): (n: nat)
    requires Delimited(b)
    ensures DelimiterAt(b, n) && forall j :: 0 <= j < n ==> !DelimiterAt(b, j)
  {
    FirstFrom(b, 0)
  }

  function FirstFrom(b: seq<byte>, from: nat): (n: nat)
    requires exists i :: from <= i <= |b| - 4 && DelimiterAt(b, i)
    ensures from <= n && DelimiterAt(b, n) && forall j :: from <= j < n ==> !DelimiterAt(b, j)
    decreases |b| - from
  {
    if DelimiterAt(b, from) then from else FirstFrom(b, from + 1)
  }

  // ------------------------------------------------------------ the header

  predicate AllAscii(b: seq<byte>) {
    forall i :: 0 <= i < |b| ==> b[i] < 128
  }

  /** decode("ascii"). */
  function Ascii(b: seq<byte>): (s: string)
    requires AllAscii(b)
    ensures |s| == |b| && forall i :: 0 <= i < |s| ==> s[i] as int == b[i]
  {
    seq(|b|, i requires 0 <= i < |b| => b[i] as char)
  }

  /** split("\r\n"). */
  function LinesOf(s: string): (r: seq<string>)
    ensures r != []
    decreases |s|
  {
    if s == [] then [[]]
    else if |s| >= 2 && s[0] == '\r' && s[1] == '\n' then [[]] + LinesOf(s[2..])
    else
      var rest := LinesOf(s[1..]);
      [[s[0]] + rest[0]] + rest[1..]
  }

  predicate Alnum(c: char) {
    'a' <= c <= 'z' || '0' <= c <= '9'
  }

  /** The hostname that AUTHORITY_PATTERN accepts before ":443". */
  predicate Hostname(s: string) {
    1 <= |s| <= 253 && Alnum(s[0]) && Alnum(s[|s| - 1]) &&
    forall i :: 0 <= i < |s| ==> Alnum(s[i]) || s[i] == '.' || s[i] == '-'
  }

  predicate EndsWith443(s: string) {
    |s| >= 4 && s[|s| - 4..] == ":443"
  }

  /** White space as str.strip removes it from ASCII text. */
  predicate Space(c: char) {
    var n := c as int;
    9 <= n <= 13 || 28 <= n <= 32
  }

  function Strip(s: string): (r: string)
    ensures |r| <= |s|
    ensures r != "" ==> !Space(r[0]) && !Space(r[|r| - 1])
    decreases |s|
  {
    if s == "" then ""
    else if Space(s[0]) then Strip(s[1..])
    else if Space(s[|s| - 1]) then Strip(s[..|s| - 1])
    else s
  }

  function Lower(s: string): (r: string)
    ensures |r| == |s|
  {
    seq(|s|, i requires 0 <= i < |s| => if 'A' <= s[i] <= 'Z' then (s[i] as int + 32) as char else s[i])
  }

  /** A header line: its normalized name and value. */
  function HeaderOf(line: string): Option<(string, string)> {
    var parts := Split(line, ':');
    if |parts| == 1 then None
    else
      var name := Lower(Strip(parts[0]));
      if name == "" then None else Some((name, Strip(Join(parts[1..], ':'))))
  }

  predicate Named(lines: seq<string>, name: string) {
    exists i :: 0 <= i < |lines| && HeaderOf(lines[i]).Some? && HeaderOf(lines[i]).value.0 == name
  }

  /** Each line is a header, and no name comes twice. */
  ghost predicate HeadersOf(lines: seq<string>, headers: map<string, string>) {
    && (forall i :: 0 <= i < |lines| ==> HeaderOf(lines[i]).Some?)
    && (forall i, j :: 0 <= i < j < |lines| ==> HeaderOf(lines[i]).value.0 != HeaderOf(lines[j]).value.0)
    && (forall i :: 0 <= i < |lines| ==>
          var h := HeaderOf(lines[i]).value; h.0 in headers && headers[h.0] == h.1)
    && (forall name :: name in headers ==> Named(lines, name))
  }

  /** The loop over the header lines. */
  method ReadHeaders(lines: seq<string>) returns (r: Option<map<string, string>>)
    ensures r.Some? ==> HeadersOf(lines, r.value)
    ensures r.None? ==> forall headers :: !HeadersOf(lines, headers)
  {
    hide HeaderOf;
    var headers: map<string, string> := map[];
    for i := 0 to |lines|
      invariant HeadersOf(lines[..i], headers)
    {
      var h := HeaderOf(lines[i]);
      if h.None? || h.value.0 in headers {
        if h.Some? {
          assert Named(lines[..i], h.value.0);
          var k :| 0 <= k < |lines[..i]| && HeaderOf(lines[..i][k]).Some? && HeaderOf(lines[..i][k]).value.0 == h.value.0;
          assert lines[..i][k] == lines[k];
        }
        return None;
      }
      HeaderAdded(lines, i, headers);
      headers := headers[h.value.0 := h.value.1];
    }
    assert lines[..|lines|] == lines;
    r := Some(headers);
  }

  lemma HeaderAdded(lines: seq<string>, i: nat, headers: map<string, string>)
    requires i < |lines| && HeadersOf(lines[..i], headers)
    requires HeaderOf(lines[i]).Some? && HeaderOf(lines[i]).value.0 !in headers
    ensures HeadersOf(lines[..i + 1], headers[HeaderOf(lines[i]).value.0 := HeaderOf(lines[i]).value.1])
  {
    hide HeaderOf;
    var next := lines[..i + 1];
    assert forall k :: 0 <= k < i ==> next[k] == lines[..i][k];
    assert next[i] == lines[i];
    var h := HeaderOf(lines[i]).value;
    forall name | name in headers[h.0 := h.1] ensures Named(next, name) {
      if name in headers {
        assert Named(lines[..i], name);
        var k :| 0 <= k < i && HeaderOf(lines[..i][k]).Some? && HeaderOf(lines[..i][k]).value.0 == name;
        assert HeaderOf(next[k]).value.0 == name;
      } else {
        assert HeaderOf(next[i]).value.0 == name;
      }
    }
  }

  /** What a header, as text, asks for; the headers are determined by their lines. */
  ghost predicate Asks(header: seq<byte>, hostname: string, headers: map<string, string>) {
    && AllAscii(header)
    && var lines := LinesOf(Ascii(header));
    && |lines| <= 64
    && var parts := Split(lines[0], ' ');
    && |parts| == 3 && parts[0] == "CONNECT" && (parts[2] == "HTTP/1.0" || parts[2] == "HTTP/1.1")
    && Hostname(hostname) && parts[1] == hostname + ":443"
    && HeadersOf(lines[1..], headers)
  }

  lemma AsksOne(header: seq<byte>, h1: string, m1: map<string, string>, h2: string, m2: map<string, string>)
    requires Asks(header, h1, m1) && Asks(header, h2, m2)
    ensures h1 == h2 && m1 == m2
  {
    hide HeaderOf, LinesOf;
    var parts := Split(LinesOf(Ascii(header))[0], ' ');
    assert h1 == parts[1][..|parts[1]| - 4] == h2;
    forall name | name in m1 ensures name in m2 && m1[name] == m2[name] {}
    forall name | name in m2 ensures name in m1 {}
  }

  /** The request line that connects to a target. */
  ghost predicate Connects(line: string, target: string, version: string) {
    ' ' !in target && ' ' !in version && line == "CONNECT" + ([' '] + (target + ([' '] + version)))
  }

  /** A target on port 443 of some hostname. */
  ghost predicate Secure(target: string) {
    exists hostname :: Hostname(hostname) && target == hostname + ":443"
  }

  /** Why a header is refused: the first thing that is wrong with it. */
  ghost predicate Refuses(header: seq<byte>, e: Error) {
    if exists i :: 0 <= i < |header| && header[i] >= 128 then e == RequestNonAscii
    else
      var lines := LinesOf(Ascii(header));
      if |lines| > 64 then e == RequestInvalid
      else if !exists target, version :: Connects(lines[0], target, version) then e == ConnectRequired
      else
        var target, version :| Connects(lines[0], target, version);
        if version != "HTTP/1.0" && version != "HTTP/1.1" then e == HttpVersionInvalid
        else if !Secure(target) then e == AuthorityInvalid
        else e == HeaderInvalid && forall headers :: !HeadersOf(lines[1..], headers)
  }

  lemma ConnectsExactly(line: string, target: string, version: string)
    ensures Connects(line, target, version) <==> Split(line, ' ') == ["CONNECT", target, version]
  {
    var parts := ["CONNECT", target, version];
    JoinThree("CONNECT", target, version);
    JoinSplit(line, ' ');
    assert parts[1] in parts && parts[2] in parts;
    if Connects(line, target, version) { SplitJoin(parts, ' '); }
  }

  lemma ConnectsOne(line: string)
    ensures var parts := Split(line, ' ');
            && (|parts| == 3 && parts[0] == "CONNECT" <==> exists target, version :: Connects(line, target, version))
            && (forall target, version :: Connects(line, target, version) ==>
                  |parts| == 3 && parts[0] == "CONNECT" && target == parts[1] && version == parts[2])
  {
    hide Connects, Split;
    forall target, version ensures Connects(line, target, version) <==> Split(line, ' ') == ["CONNECT", target, version] {
      ConnectsExactly(line, target, version);
    }
    var parts := Split(line, ' ');
    if |parts| == 3 && parts[0] == "CONNECT" { assert parts == ["CONNECT", parts[1], parts[2]]; }
  }

  lemma SecureExactly(target: string)
    ensures Secure(target) <==> EndsWith443(target) && Hostname(target[..|target| - 4])
  {
    AuthorityParts();
    if EndsWith443(target) { assert target == target[..|target| - 4] + ":443"; }
  }

  /** Everything after the bytes were received. */
  method ParseHeader(header: seq<byte>) returns (r: Result<(string, map<string, string>)>)
    ensures r.Ok? ==> Asks(header, r.value.0, r.value.1)
    ensures r.Err? ==> forall hostname, headers :: !Asks(header, hostname, headers)
    ensures r.Err? ==> Refuses(header, r.error)
  {
    hide HeadersOf, LinesOf, Split, Connects, Secure, Hostname;
    if !AllAscii(header) { return Err(RequestNonAscii); }
    var lines := LinesOf(Ascii(header));
    if |lines| > 64 { return Err(RequestInvalid); }
    var parts := Split(lines[0], ' ');
    ConnectsOne(lines[0]);
    if |parts| != 3 || parts[0] != "CONNECT" { return Err(ConnectRequired); }
    SecureExactly(parts[1]);
    if parts[2] != "HTTP/1.0" && parts[2] != "HTTP/1.1" { return Err(HttpVersionInvalid); }
    if !EndsWith443(parts[1]) || !Hostname(parts[1][..|parts[1]| - 4]) {
      AuthorityParts();
      return Err(AuthorityInvalid);
    }
    var hostname := parts[1][..|parts[1]| - 4];
    assert parts[1] == hostname + ":443";
    var headers := ReadHeaders(lines[1..]);
    r := if headers.None? then Err(HeaderInvalid) else Ok((hostname, headers.value));
  }

  lemma AuthorityParts()
    ensures forall hostname: string :: EndsWith443(hostname + ":443") && (hostname + ":443")[..|hostname + ":443"| - 4] == hostname
  {
  }

  // ------------------------------------------------------------ requests as they are written

  /** Text that stays as it is when it is stripped. */
  predicate Trim(s: string) {
    s != "" ==> !Space(s[0]) && !Space(s[|s| - 1])
  }

  predicate LineText(s: string) {
    forall i :: 0 <= i < |s| ==> s[i] as int < 128 && s[i] != '\r' && s[i] != '\n'
  }

  /** A header with a lower-case name and trimmed text. */
  predicate CanonicalHeader(h: (string, string)) {
    h.0 != "" && Trim(h.0) && Trim(h.1) && LineText(h.0) && LineText(h.1) && ':' !in h.0 &&
    forall i :: 0 <= i < |h.0| ==> !('A' <= h.0[i] <= 'Z')
  }

  function WriteHeader(h: (string, string)): string {
    h.0 + (":" + (" " + h.1))
  }

  function WriteHeaders(hs: seq<(string, string)>): (r: seq<string>)
    ensures |r| == |hs| && forall i :: 0 <= i < |r| ==> r[i] == WriteHeader(hs[i])
  {
    seq(|hs|, i requires 0 <= i < |hs| => WriteHeader(hs[i]))
  }

  function WriteLines(lines: seq<string>): string
    requires lines != []
  {
    if |lines| == 1 then lines[0] else lines[0] + ("\r\n" + WriteLines(lines[1..]))
  }

  /** No line end inside. */
  predicate OneLine(s: string) {
    forall k :: 0 <= k < |s| - 1 ==> !(s[k] == '\r' && s[k + 1] == '\n')
  }

  lemma NoReturnOneLine(s: string)
    requires '\r' !in s
    ensures OneLine(s)
  {
  }

  lemma LinesOfCons(c: char, rest: string)
    requires c == '\r' && rest != "" ==> rest[0] != '\n'
    ensures LinesOf([c] + rest) == [[c] + LinesOf(rest)[0]] + LinesOf(rest)[1..]
  {
    assert ([c] + rest)[1..] == rest;
  }

  lemma {:induction false} LinesOfPrefix(p: string, tail: string)
    requires OneLine(p) && (tail != "" ==> tail[0] != '\n')
    ensures LinesOf(p + tail) == [p + LinesOf(tail)[0]] + LinesOf(tail)[1..]
  {
    hide LinesOf;
    if p == [] {
      assert p + tail == tail && p + LinesOf(tail)[0] == LinesOf(tail)[0];
    } else {
      LinesOfPrefix(p[1..], tail);
      assert p[1..] != "" ==> p[1..][0] == p[1];
      LinesOfCons(p[0], p[1..] + tail);
      assert p + tail == [p[0]] + (p[1..] + tail);
      assert [p[0]] + (p[1..] + LinesOf(tail)[0]) == p + LinesOf(tail)[0];
    }
  }

  lemma {:induction false} LinesOfWritten(lines: seq<string>)
    requires lines != [] && forall i :: 0 <= i < |lines| ==> OneLine(lines[i])
    ensures LinesOf(WriteLines(lines)) == lines
  {
    hide LinesOf, OneLine;
    if |lines| == 1 {
      LinesOfPrefix(lines[0], []);
      LinesOfEnds([]);
      assert lines[0] + [] == lines[0];
      assert lines == [lines[0]];
    } else {
      LinesOfWritten(lines[1..]);
      LinesOfPrefix(lines[0], "\r\n" + WriteLines(lines[1..]));
      LinesOfEnds(WriteLines(lines[1..]));
      assert lines[0] + [] == lines[0];
      assert lines == [lines[0]] + lines[1..];
    }
  }

  lemma LinesOfEnds(rest: string)
    ensures LinesOf([]) == [[]] && LinesOf("\r\n" + rest) == [[]] + LinesOf(rest)
  {
    assert ("\r\n" + rest)[2..] == rest;
  }

  lemma StripTrimmed(s: string)
    requires Trim(s)
    ensures Strip(s) == s && Strip([' '] + s) == s
  {
    assert ([' '] + s)[1..] == s;
  }

  lemma HeaderReadBack(h: (string, string))
    requires CanonicalHeader(h)
    ensures HeaderOf(WriteHeader(h)) == Some(h)
  {
    var rest := ":" + (" " + h.1);
    SplitPrefix(h.0, rest, ':');
    assert rest[1..] == " " + h.1;
    JoinSplit(" " + h.1, ':');
    assert Split(rest, ':') == [[]] + Split(" " + h.1, ':');
    assert h.0 + [] == h.0;
    assert Split(WriteHeader(h), ':') == [h.0] + Split(" " + h.1, ':');
    StripTrimmed(h.0);
    StripTrimmed(h.1);
    assert Lower(h.0) == h.0;
    assert [' '] + h.1 == " " + h.1;
  }

  function RequestLine(hostname: string, version: string): string {
    "CONNECT" + (" " + ((hostname + ":443") + (" " + version)))
  }

  lemma RequestLineParts(hostname: string, version: string)
    requires Hostname(hostname) && (version == "HTTP/1.0" || version == "HTTP/1.1")
    ensures Split(RequestLine(hostname, version), ' ') == ["CONNECT", hostname + ":443", version]
    ensures '\r' !in RequestLine(hostname, version)
  {
    hide Split, Join, Hostname;
    HostnamePlain(hostname);
    var target := hostname + ":443";
    SplitJoin(["CONNECT", target, version], ' ');
    JoinThree("CONNECT", target, version);
    assert "CONNECT" + ([' '] + (target + ([' '] + version))) == RequestLine(hostname, version);
  }

  lemma HostnamePlain(hostname: string)
    requires Hostname(hostname)
    ensures ' ' !in hostname && '\r' !in hostname
  {
  }

  lemma JoinThree(a: string, b: string, c: string)
    ensures Join([a, b, c], ' ') == a + ([' '] + (b + ([' '] + c)))
  {
    assert [a, b, c][1..] == [b, c] && [b, c][1..] == [c];
    assert Join([b, c], ' ') == b + [' '] + c;
  }

  lemma WrittenHeadersRead(hs: seq<(string, string)>, headers: map<string, string>)
    requires forall i :: 0 <= i < |hs| ==> CanonicalHeader(hs[i])
    requires forall i, j :: 0 <= i < j < |hs| ==> hs[i].0 != hs[j].0
    requires forall i :: 0 <= i < |hs| ==> hs[i].0 in headers && headers[hs[i].0] == hs[i].1
    requires forall name :: name in headers ==> exists i :: 0 <= i < |hs| && hs[i].0 == name
    ensures HeadersOf(WriteHeaders(hs), headers)
  {
    hide HeaderOf, CanonicalHeader;
    var lines := WriteHeaders(hs);
    forall i | 0 <= i < |hs| ensures HeaderOf(lines[i]) == Some(hs[i]) { HeaderReadBack(hs[i]); }
    forall name | name in headers ensures Named(lines, name) {
      var i :| 0 <= i < |hs| && hs[i].0 == name;
      assert HeaderOf(lines[i]).value.0 == name;
    }
  }

  /** A CONNECT request for any hostname, in either version, with up to 63 headers of different lower-case names,
      is read as what was written. */
  lemma WrittenRequestIsRead(hostname: string, version: string, hs: seq<(string, string)>, headers: map<string, string>,
                             header: seq<byte>)
    requires Hostname(hostname) && (version == "HTTP/1.0" || version == "HTTP/1.1") && |hs| <= 63
    requires forall i :: 0 <= i < |hs| ==> CanonicalHeader(hs[i])
    requires forall i, j :: 0 <= i < j < |hs| ==> hs[i].0 != hs[j].0
    requires forall i :: 0 <= i < |hs| ==> hs[i].0 in headers && headers[hs[i].0] == hs[i].1
    requires forall name :: name in headers ==> exists i :: 0 <= i < |hs| && hs[i].0 == name
    requires AllAscii(header) && Ascii(header) == WriteLines([RequestLine(hostname, version)] + WriteHeaders(hs))
    ensures Asks(header, hostname, headers)
  {
    hide LinesOf, Split, HeadersOf, HeaderOf, WriteLines, RequestLine, OneLine;
    var lines := [RequestLine(hostname, version)] + WriteHeaders(hs);
    RequestLineParts(hostname, version);
    forall i | 0 <= i < |hs| ensures OneLine(WriteHeader(hs[i])) {
      HeaderHasNoReturn(hs[i]);
      NoReturnOneLine(WriteHeader(hs[i]));
    }
    NoReturnOneLine(lines[0]);
    LinesOfWritten(lines);
    WrittenHeadersRead(hs, headers);
    assert lines[1..] == WriteHeaders(hs);
  }

  lemma HeaderHasNoReturn(h: (string, string))
    requires CanonicalHeader(h)
    ensures '\r' !in WriteHeader(h)
  {
  }

  // ------------------------------------------------------------ receiving

  function Concat(chunks: seq<seq<byte>>): seq<byte> {
    if chunks == [] then [] else Concat(chunks[..|chunks| - 1]) + chunks[|chunks| - 1]
  }

  /** What the connection delivers: pieces of up to 2048 bytes, an empty one at its end. */
  predicate Delivery(chunks: seq<seq<byte>>) {
    forall i :: 0 <= i < |chunks| ==> |chunks[i]| <= 2048
  }

  /** None of the shorter prefixes of the pieces held the whole header, and none was too much. */
  ghost predicate Unfinished(chunks: seq<seq<byte>>, n: nat) {
    forall k :: 0 <= k < n && k < |chunks| ==>
      chunks[k] != [] && !Delimited(Concat(chunks[..k])) && |Concat(chunks[..k])| <= MAXIMUM_HEADER_BYTES
  }

  /** The first n pieces hold the whole header; one piece less does not, and was not too much. */
  ghost predicate JustDelimited(chunks: seq<seq<byte>>, n: nat) {
    n <= |chunks| && Delimited(Concat(chunks[..n])) && Unfinished(chunks, n)
  }

  lemma ReceiveMore(chunks: seq<seq<byte>>, n: nat)
    requires n < |chunks| && Unfinished(chunks, n) && chunks[n] != []
    requires !Delimited(Concat(chunks[..n])) && |Concat(chunks[..n])| <= MAXIMUM_HEADER_BYTES
    ensures Unfinished(chunks, n + 1) && Concat(chunks[..n + 1]) == Concat(chunks[..n]) + chunks[n]
  {
    hide Delimited;
    assert chunks[..n + 1][..n] == chunks[..n];
  }

  /** The loop that receives; pieces beyond the given ones are empty: the connection is at its end. */
  method Receive(chunks: seq<seq<byte>>) returns (r: Result<seq<byte>>, used: nat)
    requires Delivery(chunks)
    ensures used <= |chunks| && |Concat(chunks[..used])| <= MAXIMUM_HEADER_BYTES + 2048
    ensures Unfinished(chunks, used)
    ensures r.Ok? ==> r.value == Concat(chunks[..used]) && JustDelimited(chunks, used) && |r.value| <= MAXIMUM_HEADER_BYTES
    ensures r.Err? ==>
              (r.error == RequestTooLarge && |Concat(chunks[..used])| > MAXIMUM_HEADER_BYTES) ||
              (r.error == RequestIncomplete && !Delimited(Concat(chunks[..used])) && (used == |chunks| || chunks[used] == []) &&
               |Concat(chunks[..used])| <= MAXIMUM_HEADER_BYTES)
  {
    hide Delimited, Unfinished, Concat;
    var received: seq<byte> := [];
    used := 0;
    NothingReceived(chunks);
    while !Delimited(received)
      invariant used <= |chunks| && received == Concat(chunks[..used]) && |received| <= MAXIMUM_HEADER_BYTES
      invariant Unfinished(chunks, used)
      decreases |chunks| - used
    {
      var chunk := if used < |chunks| then chunks[used] else [];
      if chunk == [] { return Err(RequestIncomplete), used; }
      ReceiveMore(chunks, used);
      received := received + chunk;
      used := used + 1;
      if |received| > MAXIMUM_HEADER_BYTES { return Err(RequestTooLarge), used; }
    }
    r := Ok(received);
  }

  lemma NothingReceived(chunks: seq<seq<byte>>)
    ensures Concat(chunks[..0]) == [] && Unfinished(chunks, 0)
  {
  }

  /** What was received is the header of this request, the delimiter, and its remainder. */
  ghost predicate Reads(received: seq<byte>, r: Request) {
    && Delimited(received)
    && Asks(received[..HeaderLength(received)], r.hostname, r.headers)
    && received[..HeaderLength(received)] + DELIMITER + r.remainder == received
  }

  /** read_request. */
  method ReadRequest(chunks: seq<seq<byte>>) returns (r: Result<Request>, used: nat)
    requires Delivery(chunks)
    ensures used <= |chunks| && |Concat(chunks[..used])| <= 10240 && Unfinished(chunks, used)
    ensures r.Ok? ==>
              JustDelimited(chunks, used) && |Concat(chunks[..used])| <= 8192 && Reads(Concat(chunks[..used]), r.value)
    ensures r == Err(RequestTooLarge) <==> |Concat(chunks[..used])| > 8192
    ensures r == Err(RequestIncomplete) <==> !Delimited(Concat(chunks[..used])) && |Concat(chunks[..used])| <= 8192
    ensures r == Err(RequestIncomplete) ==> used == |chunks| || chunks[used] == []
    ensures r.Err? && Delimited(Concat(chunks[..used])) && |Concat(chunks[..used])| <= 8192 ==>
              var received := Concat(chunks[..used]);
              Refuses(received[..HeaderLength(received)], r.error) && forall request :: !Reads(received, request)
  {
    hide Asks, Concat, Delivery;
    var received;
    received, used := Receive(chunks);
    if received.Err? { return Err(received.error), used; }
    var n := HeaderLength(received.value);
    var header, remainder := received.value[..n], received.value[n + 4..];
    assert received.value == header + received.value[n..n + 4] + remainder;
    var parsed := ParseHeader(header);
    r := if parsed.Err? then Err(parsed.error) else Ok(Request(parsed.value.0, parsed.value.1, remainder));
  }

  /** Two ways of cutting the bytes of one connection into pieces, when both are accepted, ask for the same
      host with the same headers; whatever was received is the header, the delimiter and the remainder. */
  lemma SplittingIrrelevant(stream: seq<byte>, a: seq<byte>, b: seq<byte>, q: Request, r: Request)
    requires a <= stream && b <= stream && Reads(a, q) && Reads(b, r)
    ensures q.hostname == r.hostname && q.headers == r.headers
    ensures HeaderLength(a) == HeaderLength(b) && (a <= b ==> q.remainder <= r.remainder)
  {
    hide Asks;
    var n, m := HeaderLength(a), HeaderLength(b);
    DelimiterInBoth(stream, a, n);
    DelimiterInBoth(stream, b, m);
    if m <= n { DelimiterInPrefix(stream, a, m); }
    if n <= m { DelimiterInPrefix(stream, b, n); }
    assert a == stream[..|a|] && b == stream[..|b|];
    assert a[..n] == b[..n];
    AsksOne(a[..n], q.hostname, q.headers, r.hostname, r.headers);
    RemainderIs(a, q);
    RemainderIs(b, r);
  }

  lemma RemainderIs(a: seq<byte>, q: Request)
    requires Reads(a, q)
    ensures q.remainder == a[HeaderLength(a) + 4..]
  {
    hide Asks;
    var n := HeaderLength(a);
    assert (a[..n] + DELIMITER + q.remainder)[n + 4..] == q.remainder;
  }

  lemma DelimiterInBoth(stream: seq<byte>, a: seq<byte>, n: nat)
    requires a <= stream && DelimiterAt(a, n)
    ensures DelimiterAt(stream, n)
  {
    assert stream[n..n + 4] == a[n..n + 4];
  }

  lemma DelimiterInPrefix(stream: seq<byte>, a: seq<byte>, n: nat)
    requires a <= stream && DelimiterAt(stream, n) && n + 4 <= |a|
    ensures DelimiterAt(a, n)
  {
    assert stream[n..n + 4] == a[n..n + 4];
  }
}
