/** UTF-8 as section 3 of RFC 3629 defines it. Text is a sequence of Unicode scalar
    values; its encoding is a sequence of bytes. */
module Utf8 {
  import opened Wrappers

  function EncodeChar(c: char): (b: seq<byte>)
    ensures 1 <= |b| <= 4
  {
    var n := c as int;
    if n < 0x80 then [n]
    else if n < 0x800 then [0xC0 + n / 64, Tail(n)]
    else if n < 0x1_0000 then [0xE0 + n / 4096, Tail(n / 64), Tail(n)]
    else [0xF0 + n / 262144, Tail(n / 4096), Tail(n / 64), Tail(n)]
  }

  /** The continuation byte carrying the lowest six bits. */
  function Tail(n: nat): byte {
    0x80 + n % 64
  }

  /** The bits a continuation byte carries. */
  function Bits(b: byte): int {
    b - 0x80
  }

  /** The table of section 3 of RFC 3629, row by row: how many bytes a scalar value
      takes, their leading bits, and that the rest of them spell it. */
  lemma {:induction false} TableOfBytes(c: char)
    ensures
      var n, b := c as int, EncodeChar(c);
      && (n <= 0x7F ==> b == [n])
      && (0x80 <= n <= 0x7FF ==> |b| == 2 && 0xC0 <= b[0] < 0xE0 && n == (b[0] as int - 0xC0) * 64 + (b[1] as int - 0x80))
      && (0x800 <= n <= 0xFFFF ==>
            |b| == 3 && 0xE0 <= b[0] < 0xF0 && n == (b[0] as int - 0xE0) * 4096 + (b[1] as int - 0x80) * 64 + (b[2] as int - 0x80))
      && (0x1_0000 <= n ==>
            |b| == 4 && 0xF0 <= b[0] < 0xF5
            && n == (b[0] as int - 0xF0) * 262144 + (b[1] as int - 0x80) * 4096 + (b[2] as int - 0x80) * 64 + (b[3] as int - 0x80))
      && forall i :: 1 <= i < |b| ==> 0x80 <= b[i] < 0xC0
  {
    Groups(c as int);
  }

  function Encode(s: string): seq<byte> {
    if s == "" then [] else EncodeChar(s[0]) + Encode(s[1..])
  }

  /** A byte that continues a character rather than starting one. */
  predicate Continues(b: byte) {
    0x80 <= b < 0xC0
  }

  function ScalarOf(n: int): Option<char> {
    if 0 <= n < 0xD800 || 0xE000 <= n < 0x11_0000 then Some(n as char) else None
  }

  /** How many bytes the character starting with `b` has, 0 if none starts so. */
  function Width(b: byte): nat {
    if b < 0x80 then 1 else if b < 0xC0 then 0 else if b < 0xE0 then 2 else if b < 0xF0 then 3 else if b < 0xF8 then 4 else 0
  }

  /** The number the first character's bytes spell, shortest or not. */
  function Spelled(b: seq<byte>): int
    requires b != [] && 1 <= Width(b[0]) <= |b|
  {
    var lead: int := b[0];
    match Width(b[0])
    case 1 => lead
    case 2 => (lead - 0xC0) * 64 + Bits(b[1])
    case 3 => (lead - 0xE0) * 4096 + Bits(b[1]) * 64 + Bits(b[2])
    case _ => (lead - 0xF0) * 262144 + Bits(b[1]) * 4096 + Bits(b[2]) * 64 + Bits(b[3])
  }

  /** The first character of a byte sequence, if a shortest encoding of a scalar
      value starts there. */
  function DecodeFirst(b: seq<byte>): (c: Option<char>)
    ensures c.Some? ==> EncodeChar(c.value) <= b
  {
    if b == [] || Width(b[0]) == 0 || |b| < Width(b[0]) then None
    else
      var w := Width(b[0]);
      if exists i :: 1 <= i < w && !Continues(b[i]) then None
      else
        var c := ScalarOf(Spelled(b));
        if c.Some? && |EncodeChar(c.value)| == w then
          SpelledEncodes(b, c.value);
          c
        else None
  }

  /** Six-bit groups put together and taken apart again. */
  lemma {:induction false} GroupsJoined(g3: nat, g2: nat, g1: nat, g0: nat)
    requires g2 < 64 && g1 < 64 && g0 < 64
    ensures
      var n := g3 * 262144 + g2 * 4096 + g1 * 64 + g0;
      && n % 64 == g0 && n / 64 == g3 * 4096 + g2 * 64 + g1
      && n / 64 % 64 == g1 && n / 4096 == g3 * 64 + g2
      && n / 4096 % 64 == g2 && n / 262144 == g3
  {
  }

  /** A number is what its six-bit groups put together. */
  lemma {:induction false} Groups(n: nat)
    ensures n == n / 64 * 64 + n % 64
    ensures n == n / 4096 * 4096 + n / 64 % 64 * 64 + n % 64
    ensures n == n / 262144 * 262144 + n / 4096 % 64 * 4096 + n / 64 % 64 * 64 + n % 64
  {
    var m := n / 64;
    assert m / 64 == n / 4096 && m == m / 64 * 64 + m % 64;
    var k := m / 64;
    assert k / 64 == n / 262144 && k == k / 64 * 64 + k % 64;
  }

  lemma {:induction false} SpelledEncodes(b: seq<byte>, c: char)
    requires b != [] && 1 <= Width(b[0]) <= |b|
    requires forall i :: 1 <= i < Width(b[0]) ==> Continues(b[i])
    requires c as int == Spelled(b) && |EncodeChar(c)| == Width(b[0])
    ensures EncodeChar(c) <= b
  {
    var lead: int := b[0];
    match Width(lead) {
      case 1 =>
        assert EncodeChar(c) == b[..1];
      case 2 =>
        GroupsJoined(0, 0, lead - 0xC0, Bits(b[1]));
        assert EncodeChar(c) == b[..2];
      case 3 =>
        GroupsJoined(0, lead - 0xE0, Bits(b[1]), Bits(b[2]));
        assert EncodeChar(c) == b[..3];
      case _ =>
        GroupsJoined(lead - 0xF0, Bits(b[1]), Bits(b[2]), Bits(b[3]));
        assert EncodeChar(c) == b[..4];
    }
  }

  /** The text a byte sequence encodes, if it is valid UTF-8. */
  function Decode(b: seq<byte>): (s: Option<string>)
    ensures s.Some? ==> Encode(s.value) == b
    decreases |b|
  {
    if b == [] then Some("")
    else
      var first := DecodeFirst(b);
      if first.None? then None
      else
        var rest := Decode(b[|EncodeChar(first.value)|..]);
        if rest.None? then None else Some([first.value] + rest.value)
  }

  lemma {:induction false} DecodeFirstEncoded(c: char, rest: seq<byte>)
    ensures DecodeFirst(EncodeChar(c) + rest) == Some(c)
  {
    var b := EncodeChar(c) + rest;
    CharShape(c);
    forall i | 1 <= i < Width(b[0])
      ensures Continues(b[i])
    {
      assert b[i] == EncodeChar(c)[i];
    }
    SpelledEncoded(c, b);
  }

  lemma {:induction false} SpelledEncoded(c: char, b: seq<byte>)
    requires EncodeChar(c) <= b && Width(b[0]) == |EncodeChar(c)|
    ensures Spelled(b) == c as int
  {
    var e := EncodeChar(c);
    Groups(c as int);
    assert forall i :: 0 <= i < |e| ==> b[i] == e[i];
  }

  /** Only the first byte of a character does not continue one. */
  lemma {:induction false} CharShape(c: char)
    ensures !Continues(EncodeChar(c)[0]) && Width(EncodeChar(c)[0]) == |EncodeChar(c)|
    ensures forall i :: 1 <= i < |EncodeChar(c)| ==> Continues(EncodeChar(c)[i])
  {
  }

  lemma {:induction false} DecodeEncode(s: string)
    ensures Decode(Encode(s)) == Some(s)
  {
    if s != "" {
      DecodeFirstEncoded(s[0], Encode(s[1..]));
      assert (EncodeChar(s[0]) + Encode(s[1..]))[|EncodeChar(s[0])|..] == Encode(s[1..]);
      DecodeEncode(s[1..]);
      assert [s[0]] + s[1..] == s;
    }
  }

  /** Decoding accepts exactly what encoding produces. */
  lemma {:induction false} DecodesExactlyEncodings(b: seq<byte>, s: string)
    ensures Decode(b) == Some(s) <==> Encode(s) == b
  {
    DecodeEncode(s);
  }

  lemma {:induction false} EncodeConcat(s: string, t: string)
    ensures Encode(s + t) == Encode(s) + Encode(t)
  {
    if s == "" {
      assert s + t == t;
    } else {
      assert (s + t)[1..] == s[1..] + t;
      EncodeConcat(s[1..], t);
    }
  }
}
