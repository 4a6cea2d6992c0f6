/** Which texts are read as hostnames, header lines and requests, told by how they are put together. */
module ProxyText {
  import opened Common
  import opened Text
  import opened ProxyRequest

  const LOWER_CASE := "abcdefghijklmnopqrstuvwxyz"
  const UPPER_CASE := "ABCDEFGHIJKLMNOPQRSTUVWXYZ"
  const DIGITS := "0123456789"
  const WHITE_SPACE := "\t\n\U{000B}\U{000C}\r\U{001C}\U{001D}\U{001E}\U{001F} "

  // ------------------------------------------------------------ hostnames

  /** Characters of hostnames, at their ends and inside. */
  predicate Outer(s: string) {
    forall i :: 0 <= i < |s| ==> s[i] in LOWER_CASE || s[i] in DIGITS
  }

  predicate Inner(s: string) {
    forall i :: 0 <= i < |s| ==> s[i] in LOWER_CASE || s[i] in DIGITS || s[i] == '.' || s[i] == '-'
  }

  /** One letter or digit, or two of them around at most 251 letters, digits, dots and hyphens. */
  ghost predicate HostnameText(s: string) {
    exists first, inner, last ::
      Outer(first) && Inner(inner) && Outer(last) &&
      |first| == 1 && |inner| <= 251 && |last| <= 1 && (last == "" ==> inner == "") && s == first + inner + last
  }

  lemma AlnumListed(c: char)
    ensures Alnum(c) <==> c in LOWER_CASE || c in DIGITS
  {
    hide LOWER_CASE, DIGITS;
    LowerListed(c);
    DigitListed(c);
  }

  lemma LowerListed(c: char)
    ensures 'a' <= c <= 'z' <==> c in LOWER_CASE
  {
  }

  lemma DigitListed(c: char)
    ensures '0' <= c <= '9' <==> c in DIGITS
  {
  }

  lemma HostnameExactly(s: string)
    ensures Hostname(s) <==> HostnameText(s)
  {
    hide Hostname, HostnameText;
    if Hostname(s) { HostnameParts(s); }
    if HostnameText(s) { PartsHostname(s); }
  }

  lemma TextOf(first: string, inner: string, last: string)
    requires Outer(first) && Inner(inner) && Outer(last)
    requires |first| == 1 && |inner| <= 251 && |last| <= 1 && (last == "" ==> inner == "")
    ensures HostnameText(first + inner + last)
  {
    hide Outer, Inner;
  }

  lemma HostnameParts(s: string)
    requires Hostname(s)
    ensures HostnameText(s)
  {
    hide Alnum, LOWER_CASE, DIGITS, HostnameText;
    forall c: char ensures Alnum(c) <==> c in LOWER_CASE || c in DIGITS { AlnumListed(c); }
    var n := |s|;
    if n == 1 {
      TextOf(s, "", "");
      assert s + "" + "" == s;
    } else {
      TextOf([s[0]], s[1..n - 1], [s[n - 1]]);
      assert [s[0]] + s[1..n - 1] + [s[n - 1]] == s;
    }
  }

  lemma PartsHostname(s: string)
    requires HostnameText(s)
    ensures Hostname(s)
  {
    hide Alnum, LOWER_CASE, DIGITS;
    forall c: char ensures Alnum(c) <==> c in LOWER_CASE || c in DIGITS { AlnumListed(c); }
    var first, inner, last :|
      Outer(first) && Inner(inner) && Outer(last) &&
      |first| == 1 && |inner| <= 251 && |last| <= 1 && (last == "" ==> inner == "") && s == first + inner + last;
    assert forall i :: 0 <= i < |inner| ==> Alnum(inner[i]) || inner[i] == '.' || inner[i] == '-';
    forall i | 0 <= i < |s| ensures s[i] == if i == 0 then first[0] else if i <= |inner| then inner[i - 1] else last[0] {}
  }

  // ------------------------------------------------------------ header lines

  /** Lower case, letter by letter; everything else stays. */
  lemma LowerExactly(s: string, i: nat, k: nat)
    requires i < |s| && k < 26
    ensures s[i] == UPPER_CASE[k] ==> Lower(s)[i] == LOWER_CASE[k]
    ensures s[i] !in UPPER_CASE ==> Lower(s)[i] == s[i]
  {
    UpperListed(s[i]);
    assert UPPER_CASE[k] as int == 65 + k && LOWER_CASE[k] as int == 97 + k;
  }

  lemma UpperListed(c: char)
    ensures 'A' <= c <= 'Z' <==> c in UPPER_CASE
  {
  }

  lemma SpaceListed(c: char)
    ensures Space(c) <==> c in WHITE_SPACE
  {
  }

  predicate Blank(s: string) {
    forall i :: 0 <= i < |s| ==> s[i] in WHITE_SPACE
  }

  predicate Bare(s: string) {
    s != "" ==> s[0] !in WHITE_SPACE && s[|s| - 1] !in WHITE_SPACE
  }

  /** Stripping leaves what stands between white space. */
  lemma {:induction false} StripExactly(s: string, r: string)
    ensures Strip(s) == r <==> Bare(r) && exists front, back :: Blank(front) && Blank(back) && s == front + r + back
  {
    hide Space, Strip, WHITE_SPACE;
    forall c: char ensures Space(c) <==> c in WHITE_SPACE { SpaceListed(c); }
    var front, back := StripParts(s);
    if exists f, b :: Blank(f) && Blank(b) && s == f + r + b && Bare(r) {
      var f, b :| Blank(f) && Blank(b) && s == f + r + b && Bare(r);
      OneMiddle(front, Strip(s), back, f, r, b);
    }
  }

  lemma BlankAdded(c: char, s: string)
    requires Blank(s) && Space(c)
    ensures Blank([c] + s) && Blank(s + [c])
  {
    hide WHITE_SPACE, Space;
    SpaceListed(c);
  }

  lemma BareUnstripped(s: string)
    requires s != "" && !Space(s[0]) && !Space(s[|s| - 1])
    ensures Bare(s) && Strip(s) == s
  {
    hide WHITE_SPACE, Space;
    SpaceListed(s[0]);
    SpaceListed(s[|s| - 1]);
  }

  lemma {:induction false} StripParts(s: string) returns (front: string, back: string)
    ensures Blank(front) && Blank(back) && s == front + Strip(s) + back && Bare(Strip(s))
    decreases |s|
  {
    hide Space, WHITE_SPACE, Blank;
    NothingBlank();
    front, back := "", "";
    if s != "" && Space(s[0]) {
      front, back := StripParts(s[1..]);
      BlankAdded(s[0], front);
      assert s == [s[0]] + s[1..];
      front := [s[0]] + front;
      assert s == front + Strip(s) + back;
    } else if s != "" && Space(s[|s| - 1]) {
      front, back := StripParts(s[..|s| - 1]);
      BlankAdded(s[|s| - 1], back);
      assert s == s[..|s| - 1] + [s[|s| - 1]];
      back := back + [s[|s| - 1]];
      assert s == front + Strip(s) + back;
    } else if s != "" {
      BareUnstripped(s);
      assert s == front + s + back;
    }
  }

  lemma NothingBlank()
    ensures Blank("") && Bare("") && Strip("") == ""
  {
  }

  /** Where the white space is. */
  lemma Places(f: string, r: string, b: string)
    requires Blank(f) && Blank(b) && Bare(r)
    ensures var s := f + r + b;
            && (forall k :: 0 <= k < |f| || |f| + |r| <= k < |s| ==> s[k] in WHITE_SPACE)
            && (r != "" ==> s[|f|] !in WHITE_SPACE && s[|f| + |r| - 1] !in WHITE_SPACE)
            && s[|f|..|f| + |r|] == r
  {
    hide WHITE_SPACE;
    var s := f + r + b;
    assert forall k :: |f| + |r| <= k < |s| ==> s[k] == b[k - |f| - |r|];
  }

  /** What stands between white space is one thing. */
  lemma OneMiddle(f: string, r: string, b: string, g: string, t: string, c: string)
    requires Blank(f) && Blank(b) && Blank(g) && Blank(c) && Bare(r) && Bare(t) && f + r + b == g + t + c
    ensures r == t
  {
    hide WHITE_SPACE;
    Places(f, r, b);
    Places(g, t, c);
    var s := f + r + b;
    hide Blank, Bare;
    assert r == "" <==> t == "";
    assert r != "" ==> |f| == |g| && |r| == |t|;
  }

  /** A header line: a name, in any case, and a value, each between white space, with a colon after the name. */
  ghost predicate HeaderText(line: string, name: string, value: string) {
    exists before, after ::
      ':' !in before && line == before + (":" + after) && name != "" &&
      name == Lower(Strip(before)) && value == Strip(after)
  }

  lemma HeaderExactly(line: string, name: string, value: string)
    ensures HeaderOf(line) == Some((name, value)) <==> HeaderText(line, name, value)
  {
    hide Strip, Lower;
    var parts := Split(line, ':');
    JoinSplit(line, ':');
    if |parts| > 1 {
      assert line == parts[0] + [':'] + Join(parts[1..], ':');
      assert line == parts[0] + (":" + Join(parts[1..], ':'));
      assert parts[0] in parts;
    }
    if HeaderText(line, name, value) {
      var before, after :| ':' !in before && line == before + (":" + after) && name != "" &&
        name == Lower(Strip(before)) && value == Strip(after);
      SplitPrefix(before, ":" + after, ':');
      assert (":" + after)[1..] == after;
      assert Split(":" + after, ':') == [[]] + Split(after, ':');
      assert before + [] == before;
      assert parts == [before] + Split(after, ':');
      JoinSplit(after, ':');
      assert parts[1..] == Split(after, ':');
    }
  }

  // ------------------------------------------------------------ lines

  lemma FirstOfLines(s: string)
    ensures LinesOf(s)[0] != "" ==> s != "" && LinesOf(s)[0][0] == s[0]
  {
  }

  lemma {:induction false} LinesWritten(s: string)
    ensures WriteLines(LinesOf(s)) == s && forall i :: 0 <= i < |LinesOf(s)| ==> OneLine(LinesOf(s)[i])
    decreases |s|
  {
    var lines := LinesOf(s);
    hide OneLine;
    NoReturnOneLine("");
    if s == [] {
    } else if |s| >= 2 && s[0] == '\r' && s[1] == '\n' {
      LinesWritten(s[2..]);
      assert lines[1..] == LinesOf(s[2..]);
      assert s == [] + ("\r\n" + s[2..]);
    } else {
      var rest := LinesOf(s[1..]);
      LinesWritten(s[1..]);
      FirstOfLines(s[1..]);
      assert lines[0] == [s[0]] + rest[0] && lines[1..] == rest[1..];
      WrittenCons(s[0], rest);
      OneLineCons(s[0], rest[0]);
      assert s == [s[0]] + s[1..];
    }
  }

  lemma OneLineCons(c: char, line: string)
    requires OneLine(line) && (c == '\r' && line != "" ==> line[0] != '\n')
    ensures OneLine([c] + line)
  {
    assert forall k :: 0 <= k < |line| ==> ([c] + line)[k + 1] == line[k];
  }

  lemma WrittenCons(c: char, rest: seq<string>)
    requires rest != []
    ensures WriteLines([[c] + rest[0]] + rest[1..]) == [c] + WriteLines(rest)
  {
    var lines := [[c] + rest[0]] + rest[1..];
    assert lines[1..] == rest[1..];
    if |rest| > 1 {
      assert ([c] + rest[0]) + ("\r\n" + WriteLines(rest[1..])) == [c] + (rest[0] + ("\r\n" + WriteLines(rest[1..])));
    }
  }

  /** The lines of a text are what it is put together from with line ends between them. */
  lemma LinesExactly(s: string, lines: seq<string>)
    ensures LinesOf(s) == lines <==> lines != [] && s == WriteLines(lines) && forall i :: 0 <= i < |lines| ==> OneLine(lines[i])
  {
    hide LinesOf, WriteLines, OneLine;
    LinesWritten(s);
    if lines != [] && forall i :: 0 <= i < |lines| ==> OneLine(lines[i]) { LinesOfWritten(lines); }
  }

  lemma DelimitedExactly(received: seq<byte>)
    ensures Delimited(received) <==> exists h, t :: received == h + ([13, 10, 13, 10] + t)
  {
    if Delimited(received) {
      var n := HeaderLength(received);
      assert received[n..] == received[n..n + 4] + received[n + 4..];
      assert received == received[..n] + ([13, 10, 13, 10] + received[n + 4..]);
    }
    if h, t :| received == h + ([13, 10, 13, 10] + t) {
      assert received[|h|..|h| + 4] == DELIMITER;
      assert DelimiterAt(received, |h|);
    }
  }

  /** The header of what was received ends before the first empty line. */
  lemma HeaderEnds(header: seq<byte>, remainder: seq<byte>)
    ensures var received := header + ([13, 10, 13, 10] + remainder);
            Delimited(received) && (HeaderLength(received) == |header| <==> !Delimited(header + [13, 10, 13]))
  {
    var received, front, m := header + ([13, 10, 13, 10] + remainder), header + [13, 10, 13], |header|;
    assert received[m..m + 4] == DELIMITER;
    assert DelimiterAt(received, m);
    assert front == received[..m + 3];
    forall i: nat | i + 4 <= m + 3 ensures DelimiterAt(front, i) <==> DelimiterAt(received, i) {
      assert front[i..i + 4] == received[i..i + 4];
    }
    hide DelimiterAt;
  }

  // ------------------------------------------------------------ requests

  /** A request put together: the request line, and the header lines with different names. */
  ghost predicate RequestText(text: string, hostname: string, headers: map<string, string>) {
    exists version, lines: seq<string> ::
      && (version == "HTTP/1.0" || version == "HTTP/1.1") && HostnameText(hostname) && |lines| <= 63
      && (forall i :: 0 <= i < |lines| ==> OneLine(lines[i]))
      && text == WriteLines([RequestLine(hostname, version)] + lines) && Lists(lines, headers)
  }

  /** The header lines, with their names, give these headers, each once. */
  ghost predicate NamedBy(lines: seq<string>, names: seq<string>, headers: map<string, string>) {
    && |names| == |lines| && (forall i, j :: 0 <= i < j < |names| ==> names[i] != names[j])
    && (forall i :: 0 <= i < |lines| ==> names[i] in headers && HeaderText(lines[i], names[i], headers[names[i]]))
    && (forall name :: name in headers ==> name in names)
  }

  ghost predicate Lists(lines: seq<string>, headers: map<string, string>) {
    exists names :: NamedBy(lines, names, headers)
  }

  lemma ListsExactly(lines: seq<string>, headers: map<string, string>)
    ensures HeadersOf(lines, headers) <==> Lists(lines, headers)
  {
    hide HeadersOf, NamedBy;
    if HeadersOf(lines, headers) { NamesOfHeaders(lines, headers); }
    if names :| NamedBy(lines, names, headers) { HeadersOfNames(lines, names, headers); }
  }

  lemma NamedIn(lines: seq<string>, names: seq<string>, name: string)
    requires |names| == |lines| && forall i :: 0 <= i < |lines| ==> HeaderOf(lines[i]).Some? && names[i] == HeaderOf(lines[i]).value.0
    requires Named(lines, name)
    ensures name in names
  {
    hide HeaderOf;
    var i :| 0 <= i < |lines| && HeaderOf(lines[i]).Some? && HeaderOf(lines[i]).value.0 == name;
    assert names[i] == name;
  }

  lemma NamesOfHeaders(lines: seq<string>, headers: map<string, string>)
    requires HeadersOf(lines, headers)
    ensures Lists(lines, headers)
  {
    hide HeaderOf, HeaderText, Named;
    var names := seq(|lines|, i requires 0 <= i < |lines| => HeaderOf(lines[i]).value.0);
    forall name | name in headers ensures name in names { NamedIn(lines, names, name); }
    forall i | 0 <= i < |lines| ensures names[i] in headers && HeaderText(lines[i], names[i], headers[names[i]]) {
      var h := HeaderOf(lines[i]).value;
      HeaderExactly(lines[i], h.0, h.1);
    }
    assert NamedBy(lines, names, headers);
  }

  lemma HeadersOfNames(lines: seq<string>, names: seq<string>, headers: map<string, string>)
    requires NamedBy(lines, names, headers)
    ensures HeadersOf(lines, headers)
  {
    hide HeaderOf, HeaderText;
    forall i | 0 <= i < |lines| ensures HeaderOf(lines[i]) == Some((names[i], headers[names[i]])) {
      HeaderExactly(lines[i], names[i], headers[names[i]]);
    }
    forall name | name in headers ensures Named(lines, name) {
      var i :| 0 <= i < |names| && names[i] == name;
      assert HeaderOf(lines[i]).value.0 == name;
    }
  }

  /** The bytes of an ASCII text. */
  predicate Spells(header: seq<byte>, text: string) {
    |header| == |text| && forall i :: 0 <= i < |header| ==> header[i] == text[i] as int < 128
  }

  /** Exactly the bytes of these texts ask for a host. */
  lemma AsksExactly(header: seq<byte>, hostname: string, headers: map<string, string>)
    ensures Asks(header, hostname, headers) <==> exists text :: Spells(header, text) && RequestText(text, hostname, headers)
  {
    hide Asks, RequestText;
    if AllAscii(header) {
      AsksAscii(header, hostname, headers);
      assert Spells(header, Ascii(header));
    }
    if text :| Spells(header, text) && RequestText(text, hostname, headers) {
      assert AllAscii(header) && Ascii(header) == text;
    }
    AsksInAscii(header, hostname, headers);
  }

  lemma AsksInAscii(header: seq<byte>, hostname: string, headers: map<string, string>)
    ensures Asks(header, hostname, headers) ==> AllAscii(header)
  {
    hide HeadersOf, LinesOf;
  }

  lemma AsksAscii(header: seq<byte>, hostname: string, headers: map<string, string>)
    requires AllAscii(header)
    ensures Asks(header, hostname, headers) <==> RequestText(Ascii(header), hostname, headers)
  {
    hide LinesOf, WriteLines, OneLine, Hostname, HostnameText, HeadersOf, Lists, RequestLine, Split;
    var text := Ascii(header);
    HostnameExactly(hostname);
    if Asks(header, hostname, headers) {
      var lines := LinesOf(text);
      var parts := Split(lines[0], ' ');
      assert parts == ["CONNECT", hostname + ":443", parts[2]];
      RequestLineIs(lines[0], hostname, parts[2]);
      LinesExactly(text, lines);
      ListsExactly(lines[1..], headers);
      assert lines == [lines[0]] + lines[1..];
    }
    if RequestText(text, hostname, headers) {
      var version, lines: seq<string> :|
        && (version == "HTTP/1.0" || version == "HTTP/1.1") && HostnameText(hostname) && |lines| <= 63
        && (forall i :: 0 <= i < |lines| ==> OneLine(lines[i]))
        && text == WriteLines([RequestLine(hostname, version)] + lines) && Lists(lines, headers);
      var all := [RequestLine(hostname, version)] + lines;
      RequestLineParts(hostname, version);
      NoReturnOneLine(all[0]);
      LinesExactly(text, all);
      ListsExactly(lines, headers);
      assert all[1..] == lines;
    }
  }

  lemma RequestLineIs(line: string, hostname: string, version: string)
    requires Split(line, ' ') == ["CONNECT", hostname + ":443", version]
    ensures line == RequestLine(hostname, version)
  {
    JoinSplit(line, ' ');
    JoinThree("CONNECT", hostname + ":443", version);
    assert "CONNECT" + ([' '] + ((hostname + ":443") + ([' '] + version))) == RequestLine(hostname, version);
  }
}
