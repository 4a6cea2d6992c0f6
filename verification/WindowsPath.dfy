/** Which path texts the worker accepts, and the reserved device names it keeps out. */
module WindowsPath {
  import opened Common
  import Utf8
  import opened Text

  /** The multi-character uppercase of a character; empty when the character stands for itself. */
  function UppercaseUnits(c: char): (r: string)
  {
    if 'a' <= c <= 'z' then [(c as int - 32) as char]
    else if c == '\U{00DF}' then "SS"
    else if c == '\U{0131}' then "I"
    else if c == '\U{017F}' then "S"
    else if c == '\U{212A}' then "K"
    else if c == '\U{FB00}' then "FF"
    else if c == '\U{FB01}' then "FI"
    else if c == '\U{FB02}' then "FL"
    else if c == '\U{FB03}' then "FFI"
    else if c == '\U{FB04}' then "FFL"
    else if c == '\U{FB05}' || c == '\U{FB06}' then "ST"
    else []
  }

  function FoldChar(c: char): string {
    if UppercaseUnits(c) == [] then [c] else UppercaseUnits(c)
  }

  function Fold(s: string): string {
    if s == [] then [] else FoldChar(s[0]) + Fold(s[1..])
  }

  lemma {:induction false} FoldConcat(s: string, t: string)
    ensures Fold(s + t) == Fold(s) + Fold(t)
  {
    if s == [] {
      assert s + t == t;
    } else {
      assert (s + t)[1..] == s[1..] + t;
      FoldConcat(s[1..], t);
    }
  }

  lemma FoldOne(c: char)
    ensures Fold([c]) == FoldChar(c)
  {
    assert [c][1..] == [];
    assert FoldChar(c) + Fold([]) == FoldChar(c);
  }

  lemma FoldSnoc(s: string, c: char)
    ensures Fold(s + [c]) == Fold(s) + FoldChar(c)
  {
    FoldConcat(s, [c]);
    FoldOne(c);
  }

  lemma SliceStep(s: string, i: nat)
    requires i < |s|
    ensures s[..i + 1] == s[..i] + [s[i]] && s == s[..i + 1] + s[i + 1..]
  {
  }

  lemma FoldStep(s: string, i: nat)
    requires i < |s|
    ensures Fold(s[..i + 1]) == Fold(s[..i]) + FoldChar(s[i])
    ensures Fold(s[..i + 1]) <= Fold(s)
  {
    var head, tail, c := s[..i], s[i + 1..], s[i];
    SliceStep(s, i);
    FoldSnoc(head, c);
    FoldConcat(head + [c], tail);
  }

  /** The inner loop: the units of one character against the next expected characters. */
  method Consume(units: string, expected: string, start: nat) returns (next: nat, matched: bool)
    requires start <= |expected|
    ensures matched <==> expected[..start] + units <= expected
    ensures matched ==> next == start + |units|
  {
    next, matched := start, true;
    for k := 0 to |units|
      invariant next == start + k <= |expected|
      invariant expected[start..next] == units[..k]
    {
      if next == |expected| || expected[next] != units[k] {
        assert (expected[..start] + units)[next] == units[k];
        return next, false;
      }
      assert expected[start..next + 1] == expected[start..next] + [expected[next]];
      assert units[..k + 1] == units[..k] + [units[k]];
      next := next + 1;
    }
    assert expected[..start] + units == expected[..next];
  }

  /** limited_uppercase_equals: the streaming comparison is the comparison of the folded text. */
  method LimitedUppercaseEquals(value: string, expected: string) returns (equal: bool)
    ensures equal <==> Fold(value) == expected
  {
    var next := 0;
    for i := 0 to |value|
      invariant 0 <= next <= |expected|
      invariant expected[..next] == Fold(value[..i])
    {
      FoldStep(value, i);
      var matched;
      var mapped := UppercaseUnits(value[i]);
      if mapped == [] {
        next, matched := Consume([value[i]], expected, next);
      } else {
        next, matched := Consume(mapped, expected, next);
      }
      if !matched {
        return false;
      }
    }
    assert value[..|value|] == value;
    equal := next == |expected|;
  }

  const RESERVED_NAMES: seq<string> := [
    "CON", "PRN", "AUX", "NUL", "CLOCK$", "CONIN$", "CONOUT$",
    "COM1", "COM2", "COM3", "COM4", "COM5", "COM6", "COM7", "COM8", "COM9", "COM\U{00B9}", "COM\U{00B2}", "COM\U{00B3}",
    "LPT1", "LPT2", "LPT3", "LPT4", "LPT5", "LPT6", "LPT7", "LPT8", "LPT9", "LPT\U{00B9}", "LPT\U{00B2}", "LPT\U{00B3}"]

  predicate Trimmable(c: char) { c == '.' || c == ' ' }

  function TrimEnd(s: string): (r: string)
    ensures r <= s
    ensures r != [] ==> !Trimmable(r[|r| - 1])
    ensures forall k :: |r| <= k < |s| ==> Trimmable(s[k])
  {
    if s != [] && Trimmable(s[|s| - 1]) then TrimEnd(s[..|s| - 1]) else s
  }

  function Basename(segment: string): string {
    TrimEnd(Split(segment, '.')[0])
  }

  /** reserved_windows_basename as a specification. */
  predicate Reserved(segment: string) {
    Fold(Basename(segment)) in RESERVED_NAMES
  }

  method ReservedWindowsBasename(segment: string) returns (reserved: bool)
    ensures reserved <==> Reserved(segment)
  {
    var basename := TrimEnd(Split(segment, '.')[0]);
    for i := 0 to |RESERVED_NAMES|
      invariant forall k :: 0 <= k < i ==> Fold(basename) != RESERVED_NAMES[k]
    {
      var equal := LimitedUppercaseEquals(basename, RESERVED_NAMES[i]);
      if equal { return true; }
    }
    reserved := false;
  }

  predicate Forbidden(c: char) {
    c <= '\U{001F}' || c == '\U{007F}' ||
    c == '<' || c == '>' || c == ':' || c == '"' || c == '/' || c == '|' || c == '?' || c == '*'
  }

  predicate ValidSegment(segment: string) {
    && segment != [] && segment != "." && segment != ".."
    && !Trimmable(segment[|segment| - 1])
    && (forall c :: c in segment ==> !Forbidden(c))
    && !Reserved(segment)
  }

  const BACKSLASH: byte := 92

  /** is_supported_windows_path, with the byte tests on the UTF-8 of the text as in the code. */
  predicate Supported(path: string) {
    var bytes := Utf8.Encode(path);
    && |bytes| >= 3
    && 65 <= bytes[0] <= 90 && bytes[1] == 58 && bytes[2] == BACKSLASH
    && (|bytes| == 3 || bytes[|bytes| - 1] != BACKSLASH)
    && 0 !in bytes
    && (|bytes| == 3 || forall segment :: segment in Split(AfterDrive(path), '\\') ==> ValidSegment(segment))
  }

  /** The text after the three ASCII bytes of the drive. */
  function AfterDrive(path: string): string {
    if |path| >= 3 then path[3..] else []
  }

  /** Three leading ASCII bytes are three leading characters. */
  lemma AsciiDrive(path: string)
    requires var bytes := Utf8.Encode(path); |bytes| >= 3 && bytes[0] < 0x80 && bytes[1] < 0x80 && bytes[2] < 0x80
    ensures |path| >= 3
    ensures path[0] as int == Utf8.Encode(path)[0] && path[1] as int == Utf8.Encode(path)[1]
    ensures path[2] as int == Utf8.Encode(path)[2]
    ensures |Utf8.Encode(path)| == 3 <==> |path| == 3
  {
    var bytes := Utf8.Encode(path);
    assert bytes[0] == Utf8.EncodeChar(path[0])[0];
    var b1 := Utf8.Encode(path[1..]);
    assert bytes == [bytes[0]] + b1 && b1[0] == bytes[1];
    assert b1[0] == Utf8.EncodeChar(path[1])[0];
    var b2 := Utf8.Encode(path[2..]);
    assert path[1..][1..] == path[2..];
    assert b1 == [b1[0]] + b2 && b2[0] == bytes[2];
    assert b2[0] == Utf8.EncodeChar(path[2])[0];
    assert path[2..][1..] == path[3..];
    assert b2 == [b2[0]] + Utf8.Encode(path[3..]);
  }

  /** An accepted path is a drive letter followed by nothing or by valid segments. */
  ghost predicate DriveWithSegments(path: string, segments: seq<string>) {
    && |path| >= 3 && 'A' <= path[0] <= 'Z' && path[1] == ':' && path[2] == '\\'
    && path[3..] == Join(segments, '\\')
    && Separated(segments, '\\')
    && (forall segment :: segment in segments ==> ValidSegment(segment))
  }

  /** The acceptor, in full: the byte tests on the UTF-8 add nothing to the shape by segments. */
  lemma SupportedIffSegments(path: string)
    ensures Supported(path) <==>
              (exists segments :: DriveWithSegments(path, segments))
  {
    var bytes := Utf8.Encode(path);
    if Supported(path) {
      AsciiDrive(path);
      if |path| == 3 {
        assert path[3..] == Join([], '\\');
        assert DriveWithSegments(path, []);
      } else {
        JoinSplit(path[3..], '\\');
        assert DriveWithSegments(path, Split(path[3..], '\\'));
      }
    }
    if segments :| DriveWithSegments(path, segments) {
      SegmentsSupported(path, segments);
    }
  }

  lemma SegmentsSupported(path: string, segments: seq<string>)
    requires DriveWithSegments(path, segments)
    ensures Supported(path)
  {
    var tail, bytes := path[3..], Utf8.Encode(path);
    DriveEncodes(path);
    AsciiDrive(path);
    Utf8.AsciiByteIsChar(tail, '\0');
    if segments != [] {
      JoinedSegments(segments);
      SplitJoin(segments, '\\');
      LastByte(tail);
    }
  }

  lemma DriveEncodes(path: string)
    requires |path| >= 3 && path[0] as int < 0x80 && path[1] as int < 0x80 && path[2] as int < 0x80
    ensures Utf8.Encode(path) == [path[0] as int, path[1] as int, path[2] as int] + Utf8.Encode(path[3..])
  {
    assert path[1..][1..] == path[2..] && path[2..][1..] == path[3..];
    assert Utf8.Encode(path[1..]) == [path[1] as int] + Utf8.Encode(path[2..]);
    assert Utf8.Encode(path[2..]) == [path[2] as int] + Utf8.Encode(path[3..]);
  }

  /** Joined valid segments are not empty, hold no NUL and end in no separator. */
  lemma {:induction false} JoinedSegments(segments: seq<string>)
    requires segments != [] && Separated(segments, '\\')
    requires forall segment :: segment in segments ==> ValidSegment(segment)
    ensures var tail := Join(segments, '\\');
            tail != [] && '\0' !in tail && tail[|tail| - 1] != '\\'
  {
    assert ValidSegment(segments[0]);
    assert forall c :: c in segments[0] ==> !Forbidden(c);
    var last := segments[0][|segments[0]| - 1];
    assert last in segments[0];
    if |segments| > 1 {
      JoinedSegments(segments[1..]);
    }
  }

  lemma {:induction false} LastByte(s: string)
    requires s != []
    ensures var bytes := Utf8.Encode(s); bytes[|bytes| - 1] == BACKSLASH <==> s[|s| - 1] == '\\'
  {
    hide Utf8.Encode, Utf8.EncodeChar;
    EncodedCons(s);
    if |s| == 1 {
      LastOfChar(s[0]);
    } else {
      LastByte(s[1..]);
      EncodedCons(s[1..]);
    }
  }

  lemma EncodedCons(s: string)
    requires s != []
    ensures Utf8.Encode(s) == Utf8.EncodeChar(s[0]) + Utf8.Encode(s[1..])
    ensures |s| == 1 ==> Utf8.Encode(s[1..]) == []
    ensures Utf8.EncodeChar(s[0]) != []
  {
  }

  lemma LastOfChar(c: char)
    ensures var head := Utf8.EncodeChar(c); head != [] && (head[|head| - 1] == BACKSLASH <==> c == '\\')
  {
    var head := Utf8.EncodeChar(c);
    assert head[|head| - 1] < 0x80 <==> c as int < 0x80;
  }

  /** Reservedness depends only on the trimmed text before the first dot: extensions and trailing
      dots or spaces of that text change nothing. */
  lemma ReservedByBasename(base: string, extension: string)
    requires '.' !in base
    ensures Reserved(base + "." + extension) == Reserved(base)
    ensures Reserved(base + " ") == Reserved(base)
    ensures Reserved(base) == Reserved(Basename(base))
  {
    assert base + "." + extension == base + ("." + extension);
    assert ("." + extension)[1..] == extension;
    SplitPrefix(base, "." + extension, '.');
    assert base + [] == base && Split([], '.') == [[]];
    SplitPrefix(base, [], '.');
    SplitPrefix(base + " ", [], '.');
    assert base + " " + [] == base + " ";
    assert (base + " ")[..|base|] == base;
    var trimmed := TrimEnd(base);
    assert '.' !in trimmed;
    SplitPrefix(trimmed, [], '.');
    assert trimmed + [] == trimmed;
    TrimIdempotent(base);
  }

  lemma TrimIdempotent(s: string)
    ensures TrimEnd(TrimEnd(s)) == TrimEnd(s)
  {
  }

  function LowerChar(c: char): char {
    if 'A' <= c <= 'Z' then (c as int + 32) as char else c
  }

  function Lower(s: string): (r: string)
    ensures |r| == |s| && forall k :: 0 <= k < |s| ==> r[k] == LowerChar(s[k])
  {
    if s == [] then [] else [LowerChar(s[0])] + Lower(s[1..])
  }

  lemma {:induction false} FoldIgnoresCase(s: string)
    ensures Fold(Lower(s)) == Fold(s)
  {
    if s != [] {
      FoldIgnoresCase(s[1..]);
      assert Lower(s)[1..] == Lower(s[1..]);
    }
  }

  /** A device name stays reserved however its ASCII letters are cased. */
  lemma ReservedIgnoresCase(base: string)
    requires '.' !in base
    ensures Reserved(Lower(base)) == Reserved(base)
  {
    assert base + [] == base && Lower(base) + [] == Lower(base);
    SplitPrefix(base, [], '.');
    SplitPrefix(Lower(base), [], '.');
    TrimLower(base);
    FoldIgnoresCase(TrimEnd(base));
  }

  lemma TrimSnoc(s: string)
    requires s != []
    ensures TrimEnd(s) == if Trimmable(s[|s| - 1]) then TrimEnd(s[..|s| - 1]) else s
  {
  }

  lemma TrimNothing()
    ensures TrimEnd("") == "" && Lower("") == ""
  {
  }

  lemma {:induction false} TrimLower(s: string)
    ensures TrimEnd(Lower(s)) == Lower(TrimEnd(s))
    decreases |s|
  {
    hide TrimEnd, Lower;
    TrimNothing();
    if s != [] && Trimmable(s[|s| - 1]) {
      var short, low := s[..|s| - 1], Lower(s);
      TrimLower(short);
      assert low[..|s| - 1] == Lower(short);
      assert Trimmable(low[|s| - 1]);
      TrimSnoc(low);
      TrimSnoc(s);
    } else if s != [] {
      TrimSnoc(Lower(s));
      TrimSnoc(s);
    }
  }

  // ------------------------------------------------------------ the tables

  const LOWER_CASE := "abcdefghijklmnopqrstuvwxyz"
  const UPPER_CASE := "ABCDEFGHIJKLMNOPQRSTUVWXYZ"
  const SPECIAL_CASE := "\U{00DF}\U{0131}\U{017F}\U{212A}\U{FB00}\U{FB01}\U{FB02}\U{FB03}\U{FB04}\U{FB05}\U{FB06}"
  const SPECIAL_UPPER := ["SS", "I", "S", "K", "FF", "FI", "FL", "FFI", "FFL", "ST", "ST"]

  /** The i-th lower-case letter folds to the i-th upper-case one. */
  lemma FoldsLetter(i: nat)
    requires i < 26
    ensures FoldChar(LOWER_CASE[i]) == [UPPER_CASE[i]]
  {
    assert LOWER_CASE[i] as int == 97 + i && UPPER_CASE[i] as int == 65 + i;
  }

  /** The special letters fold as listed. */
  lemma FoldsSpecial(i: nat)
    requires i < 11
    ensures FoldChar(SPECIAL_CASE[i]) == SPECIAL_UPPER[i]
  {
  }

  /** And nothing else changes. */
  lemma FoldsNothingElse(c: char)
    requires c !in LOWER_CASE && c !in SPECIAL_CASE
    ensures FoldChar(c) == [c]
  {
    LetterListed(c);
  }

  lemma LetterListed(c: char)
    ensures 'a' <= c <= 'z' ==> c in LOWER_CASE
  {
    if 'a' <= c <= 'z' { assert LOWER_CASE[c as int - 97] == c; }
  }

  const DEVICES := ["CON", "PRN", "AUX", "NUL", "CLOCK$", "CONIN$", "CONOUT$"]
  const PORT_DIGITS := "123456789\U{00B9}\U{00B2}\U{00B3}"

  /** A device, or one of the ports COM1 to COM9 and LPT1 to LPT9, superscript one to three included. */
  predicate DeviceName(name: string) {
    name in DEVICES || (|name| == 4 && (name[..3] == "COM" || name[..3] == "LPT") && name[3] in PORT_DIGITS)
  }

  /** The names that are kept out are the device names. */
  lemma ReservedAreDevices(i: nat)
    requires i < |RESERVED_NAMES|
    ensures DeviceName(RESERVED_NAMES[i])
  {
    if i < 7 {
      assert RESERVED_NAMES[i] == DEVICES[i];
    } else if i < 19 {
      assert RESERVED_NAMES[i][3] == PORT_DIGITS[i - 7];
    } else {
      assert RESERVED_NAMES[i][3] == PORT_DIGITS[i - 19];
    }
  }

  lemma PortsReserved(k: nat)
    requires k < 12
    ensures RESERVED_NAMES[7 + k] == "COM" + [PORT_DIGITS[k]] && RESERVED_NAMES[19 + k] == "LPT" + [PORT_DIGITS[k]]
  {
  }

  lemma DevicesAreReserved(name: string)
    requires DeviceName(name)
    ensures name in RESERVED_NAMES
  {
    if name in DEVICES {
      var i :| 0 <= i < 7 && DEVICES[i] == name;
      assert RESERVED_NAMES[i] == name;
    } else {
      var k :| 0 <= k < 12 && PORT_DIGITS[k] == name[3];
      assert name == name[..3] + [PORT_DIGITS[k]];
      PortsReserved(k);
    }
  }

  lemma ForbiddenListed(c: char)
    ensures Forbidden(c) <==> c as int < 32 || c as int == 127 || c in "<>:\"/|?*"
  {
  }
}
