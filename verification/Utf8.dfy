/** UTF-8 (RFC 3629) as the worker uses it: the text of a request path. */
module Utf8 {
  import opened Common

  function EncodeChar(c: char): (r: seq<byte>)
    ensures 1 <= |r| <= 4
    ensures c as int < 0x80 <==> |r| == 1
    ensures forall k :: 0 <= k < |r| ==> (r[k] < 0x80 <==> c as int < 0x80)
  {
    var n := c as int;
    if n < 0x80 then [n]
    else if n < 0x800 then [0xC0 + n / 64, 0x80 + n % 64]
    else if n < 0x10000 then [0xE0 + n / 4096, 0x80 + n / 64 % 64, 0x80 + n % 64]
    else [0xF0 + n / 262144, 0x80 + n / 4096 % 64, 0x80 + n / 64 % 64, 0x80 + n % 64]
  }

  function Encode(s: string): (r: seq<byte>)
    ensures |s| <= |r| <= 4 * |s|
  {
    if s == [] then [] else EncodeChar(s[0]) + Encode(s[1..])
  }

  predicate Continuation(b: byte) {
    0x80 <= b < 0xC0
  }

  /** The number coded by the first k bytes, without the well-formedness conditions. */
  function Coded(b: seq<byte>, k: nat): int
    requires 1 <= k <= 4 && k <= |b|
  {
    if k == 1 then b[0]
    else if k == 2 then (b[0] as int - 0xC0) * 64 + (b[1] as int - 0x80)
    else if k == 3 then (b[0] as int - 0xE0) * 4096 + (b[1] as int - 0x80) * 64 + (b[2] as int - 0x80)
    else (b[0] as int - 0xF0) * 262144 + (b[1] as int - 0x80) * 4096 + (b[2] as int - 0x80) * 64 + (b[3] as int - 0x80)
  }

  predicate Continued(b: seq<byte>, k: nat)
    requires 1 <= k <= 4 && k <= |b|
  {
    (k >= 2 ==> Continuation(b[1])) && (k >= 3 ==> Continuation(b[2])) && (k == 4 ==> Continuation(b[3]))
  }

  /** The length a lead byte announces; 0 for a byte that cannot lead. */
  function Announced(lead: byte): nat {
    if lead < 0x80 then 1 else if lead < 0xC0 then 0 else if lead < 0xE0 then 2
    else if lead < 0xF0 then 3 else if lead < 0xF8 then 4 else 0
  }

  /** Shortest form, inside the code space and outside the surrogates. */
  predicate Shortest(v: int, k: nat) {
    (k == 1 && 0 <= v < 0x80) || (k == 2 && 0x80 <= v < 0x800) ||
    (k == 3 && 0x800 <= v < 0x10000 && !(0xD800 <= v < 0xE000)) || (k == 4 && 0x10000 <= v < 0x110000)
  }

  function DecodeFirst(b: seq<byte>): (r: Option<(char, nat)>)
    requires b != []
    ensures r.Some? ==> 1 <= r.value.1 <= |b|
  {
    var k := Announced(b[0]);
    if k == 0 || k > |b| || !Continued(b, k) || !Shortest(Coded(b, k), k) then None
    else Some((Coded(b, k) as char, k))
  }

  /** from_utf8: the whole of b, or nothing. */
  function Decode(b: seq<byte>): (r: Option<string>)
    decreases |b|
  {
    if b == [] then Some([])
    else
      var first := DecodeFirst(b);
      if first.None? then None
      else
        var rest := Decode(b[first.value.1..]);
        if rest.None? then None else Some([first.value.0] + rest.value)
  }

  /** The base-64 digits of a number add up to it. */
  lemma Digits(n: nat)
    ensures n == n / 64 * 64 + n % 64
    ensures n == n / 4096 * 4096 + n / 64 % 64 * 64 + n % 64
    ensures n == n / 262144 * 262144 + n / 4096 % 64 * 4096 + n / 64 % 64 * 64 + n % 64
  {
    assert n / 4096 == n / 64 / 64;
    assert n / 262144 == n / 4096 / 64;
  }

  lemma EncodedCharIsCoded(c: char)
    ensures var b := EncodeChar(c);
            Announced(b[0]) == |b| && Continued(b, |b|) && Coded(b, |b|) == c as int && Shortest(c as int, |b|)
  {
    var b, n := EncodeChar(c), c as int;
    Digits(n);
    if |b| == 2 {
      assert b[0] as int - 0xC0 == n / 64 && b[1] as int - 0x80 == n % 64;
    } else if |b| == 3 {
      assert b[0] as int - 0xE0 == n / 4096 && b[1] as int - 0x80 == n / 64 % 64 && b[2] as int - 0x80 == n % 64;
    } else if |b| == 4 {
      assert b[0] as int - 0xF0 == n / 262144 && b[1] as int - 0x80 == n / 4096 % 64;
      assert b[2] as int - 0x80 == n / 64 % 64 && b[3] as int - 0x80 == n % 64;
    }
  }

  lemma EncodedCharDecodes(c: char, rest: seq<byte>)
    ensures DecodeFirst(EncodeChar(c) + rest) == Some((c, |EncodeChar(c)|))
  {
    EncodedCharIsCoded(c);
    var head := EncodeChar(c);
    var b := head + rest;
    assert b[0] == head[0];
    assert |head| >= 2 ==> b[1] == head[1];
    assert |head| >= 3 ==> b[2] == head[2];
    assert |head| == 4 ==> b[3] == head[3];
  }

  lemma CodedTwo(b: seq<byte>)
    requires |b| == 2 && Announced(b[0]) == 2 && Continued(b, 2) && Shortest(Coded(b, 2), 2)
    ensures EncodeChar(Coded(b, 2) as char) == b
  {
  }

  lemma CodedThree(b: seq<byte>)
    requires |b| == 3 && Announced(b[0]) == 3 && Continued(b, 3) && Shortest(Coded(b, 3), 3)
    ensures EncodeChar(Coded(b, 3) as char) == b
  {
    var n := Coded(b, 3);
    assert n / 64 == (b[0] as int - 0xE0) * 64 + (b[1] as int - 0x80);
  }

  /** Four base-64 digits, taken apart again. */
  lemma FourDigits(p: nat, q: nat, r: nat, t: nat)
    requires q < 64 && r < 64 && t < 64
    ensures var n := p * 262144 + q * 4096 + r * 64 + t;
            n % 64 == t && n / 64 % 64 == r && n / 4096 % 64 == q && n / 262144 == p
  {
    var n := p * 262144 + q * 4096 + r * 64 + t;
    var high, middle := p * 4096 + q * 64 + r, p * 64 + q;
    assert n == high * 64 + t;
    assert n / 64 == high && n % 64 == t;
    assert high == middle * 64 + r;
    assert high / 64 == middle && high % 64 == r;
    Digits(n);
    assert n / 4096 == middle by { assert n == middle * 4096 + (r * 64 + t) && 0 <= r * 64 + t < 4096; }
    assert n / 262144 == p by { assert n == p * 262144 + (q * 4096 + r * 64 + t) && 0 <= q * 4096 + r * 64 + t < 262144; }
  }

  lemma CodedFour(b: seq<byte>)
    requires |b| == 4 && Announced(b[0]) == 4 && Continued(b, 4) && Shortest(Coded(b, 4), 4)
    ensures EncodeChar(Coded(b, 4) as char) == b
  {
    FourDigits(b[0] as int - 0xF0, b[1] as int - 0x80, b[2] as int - 0x80, b[3] as int - 0x80);
  }

  lemma DecodedCharEncodes(b: seq<byte>)
    requires b != [] && DecodeFirst(b).Some?
    ensures EncodeChar(DecodeFirst(b).value.0) == b[..DecodeFirst(b).value.1]
  {
    var k := DecodeFirst(b).value.1;
    var head := b[..k];
    assert Coded(head, k) == Coded(b, k) && Continued(head, k) && head[0] == b[0];
    if k == 2 { CodedTwo(head); }
    if k == 3 { CodedThree(head); }
    if k == 4 { CodedFour(head); }
  }

  lemma EncodeCons(c: char, s: string)
    ensures Encode([c] + s) == EncodeChar(c) + Encode(s)
  {
    assert ([c] + s)[1..] == s;
  }

  lemma DecodeNothing()
    ensures Decode([]) == Some([]) && Encode([]) == []
  {
  }

  lemma DecodeCons(head: seq<byte>, rest: seq<byte>, c: char, s: string)
    requires head != [] && DecodeFirst(head + rest) == Some((c, |head|)) && Decode(rest) == Some(s)
    ensures Decode(head + rest) == Some([c] + s)
  {
    assert (head + rest)[|head|..] == rest;
  }

  lemma {:induction false} DecodeEncode(s: string)
    ensures Decode(Encode(s)) == Some(s)
  {
    hide *;
    if s == [] {
      DecodeNothing();
    } else {
      var c, rest := s[0], s[1..];
      assert s == [c] + rest;
      EncodeCons(c, rest);
      EncodedCharDecodes(c, Encode(rest));
      DecodeEncode(rest);
      DecodeCons(EncodeChar(c), Encode(rest), c, rest);
    }
  }

  /** What Decode does with its first character. */
  lemma DecodeUnfolds(b: seq<byte>)
    requires b != [] && Decode(b).Some?
    ensures DecodeFirst(b).Some? && Decode(b[DecodeFirst(b).value.1..]).Some?
    ensures Decode(b).value == [DecodeFirst(b).value.0] + Decode(b[DecodeFirst(b).value.1..]).value
  {
  }

  lemma {:induction false} EncodeDecode(b: seq<byte>)
    requires Decode(b).Some?
    ensures Encode(Decode(b).value) == b
    decreases |b|
  {
    hide *;
    if b == [] {
      DecodeNothing();
    } else {
      DecodeUnfolds(b);
      var (c, k) := DecodeFirst(b).value;
      var rest := b[k..];
      EncodeDecode(rest);
      DecodedCharEncodes(b);
      EncodeCons(c, Decode(rest).value);
      assert b == b[..k] + rest;
    }
  }

  lemma {:induction false} EncodeConcat(s: string, t: string)
    ensures Encode(s + t) == Encode(s) + Encode(t)
  {
    if s == [] {
      assert s + t == t;
    } else {
      assert (s + t)[1..] == s[1..] + t;
      EncodeConcat(s[1..], t);
    }
  }

  /** An ASCII byte occurs in the encoding exactly when the character occurs in the text. */
  lemma {:induction false} AsciiByteIsChar(s: string, a: char)
    requires a as int < 0x80
    ensures a as int in Encode(s) <==> a in s
  {
    if s != [] {
      AsciiByteIsChar(s[1..], a);
      var head := EncodeChar(s[0]);
      assert Encode(s) == head + Encode(s[1..]);
      assert s == [s[0]] + s[1..];
      assert a as int in head <==> s[0] == a by {
        if s[0] as int < 0x80 { assert head == [s[0] as int]; }
      }
    }
  }

  // ------------------------------------------------------------ decoding as bytes arrive

  /** The characters that the bytes so far complete; an unfinished one at the end is held back. */
  function DecodePrefix(b: seq<byte>): string
    decreases |b|
  {
    if b == [] || DecodeFirst(b).None? then []
    else [DecodeFirst(b).value.0] + DecodePrefix(b[DecodeFirst(b).value.1..])
  }

  /** A complete first character is not changed by what follows. */
  lemma FirstStays(a: seq<byte>, b: seq<byte>)
    requires a != [] && DecodeFirst(a).Some?
    ensures DecodeFirst(a + b) == DecodeFirst(a)
  {
    var k := DecodeFirst(a).value.1;
    assert (a + b)[0] == a[0];
    assert forall i :: 0 <= i < k ==> (a + b)[i] == a[i];
    assert Coded(a + b, k) == Coded(a, k) && Continued(a + b, k) == Continued(a, k);
  }

  lemma {:induction false} DecodePrefixGrows(a: seq<byte>, b: seq<byte>)
    ensures DecodePrefix(a) <= DecodePrefix(a + b)
    decreases |a|
  {
    hide DecodeFirst;
    if a != [] && DecodeFirst(a).Some? {
      var k := DecodeFirst(a).value.1;
      FirstStays(a, b);
      DecodePrefixGrows(a[k..], b);
      assert (a + b)[k..] == a[k..] + b;
    }
  }

  lemma {:induction false} DecodePrefixWhole(b: seq<byte>)
    requires Decode(b).Some?
    ensures DecodePrefix(b) == Decode(b).value
    decreases |b|
  {
    hide DecodeFirst;
    if b != [] { DecodePrefixWhole(b[DecodeFirst(b).value.1..]); }
  }

  // ------------------------------------------------------------ the table of RFC 3629

  /** The four rows of the table in section 3 of RFC 3629: a lead byte with the high bits, and six bits in each byte after it. */
  predicate TableRow(n: nat, b: seq<byte>) {
    && (forall k :: 0 < k < |b| ==> 128 <= b[k] <= 191)
    && (|| (|b| == 1 && n <= 127 && n == b[0])
        || (|b| == 2 && 128 <= n <= 2047 && 192 <= b[0] <= 223 && n == (b[0] as int - 192) * 64 + (b[1] as int - 128))
        || (|b| == 3 && 2048 <= n <= 65535 && 224 <= b[0] <= 239 && n == (b[0] as int - 224) * 4096 + (b[1] as int - 128) * 64 + (b[2] as int - 128))
        || (|b| == 4 && 65536 <= n <= 1114111 && 240 <= b[0] <= 247 &&
            n == (b[0] as int - 240) * 262144 + (b[1] as int - 128) * 4096 + (b[2] as int - 128) * 64 + (b[3] as int - 128)))
  }

  lemma EncodedByTable(c: char, b: seq<byte>)
    ensures EncodeChar(c) == b <==> TableRow(c as int, b)
  {
    EncodedCharIsCoded(c);
    if TableRow(c as int, b) {
      if |b| == 2 { CodedTwo(b); }
      if |b| == 3 { CodedThree(b); }
      if |b| == 4 { CodedFour(b); }
    }
  }
}
