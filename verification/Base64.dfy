/** Base64 as RFC 4648 defines it: the standard alphabet of section 4 and the
    URL-safe one of section 5, with the padding of section 3.2. Decoding is strict:
    it accepts only what encoding produces, so padding is required and the unused
    bits before it must be zero (section 3.5). */
module Base64 {
  import opened Wrappers

  datatype Alphabet = Standard | UrlSafe

  type sextet = x: int | 0 <= x < 64

  function Symbol(a: Alphabet, v: sextet): char {
    if v < 26 then 'A' + v as char
    else if v < 52 then 'a' + (v - 26) as char
    else if v < 62 then '0' + (v - 52) as char
    else if v == 62 then (if a.Standard? then '+' else '-')
    else (if a.Standard? then '/' else '_')
  }

  function Value(a: Alphabet, c: char): (v: Option<sextet>)
    ensures v.Some? ==> Symbol(a, v.value) == c
  {
    if 'A' <= c <= 'Z' then Some(c as int - 'A' as int)
    else if 'a' <= c <= 'z' then Some(c as int - 'a' as int + 26)
    else if '0' <= c <= '9' then Some(c as int - '0' as int + 52)
    else if c == (if a.Standard? then '+' else '-') then Some(62)
    else if c == (if a.Standard? then '/' else '_') then Some(63)
    else None
  }

  lemma {:induction false} ValueOfSymbol(a: Alphabet, v: sextet)
    ensures Value(a, Symbol(a, v)) == Some(v)
    ensures Symbol(a, v) != '='
  {
  }

  function Symbols(a: Alphabet, v: seq<sextet>): (s: string)
    ensures |s| == |v|
  {
    if v == [] then "" else [Symbol(a, v[0])] + Symbols(a, v[1..])
  }

  function Values(a: Alphabet, s: string): (v: Option<seq<sextet>>)
    ensures v.Some? ==> Symbols(a, v.value) == s
  {
    if s == "" then Some([])
    else
      var first, rest := Value(a, s[0]), Values(a, s[1..]);
      if first.None? || rest.None? then None else Some([first.value] + rest.value)
  }

  lemma {:induction false} ValuesOfSymbols(a: Alphabet, v: seq<sextet>)
    ensures Values(a, Symbols(a, v)) == Some(v)
    ensures '=' !in Symbols(a, v)
  {
    if v != [] {
      ValueOfSymbol(a, v[0]);
      ValuesOfSymbols(a, v[1..]);
      assert Symbols(a, v)[1..] == Symbols(a, v[1..]);
      assert [v[0]] + v[1..] == v;
    }
  }

  // Three bytes are four sextets, and the other way round.

  function S0(b0: byte): sextet { b0 / 4 }
  function S1(b0: byte, b1: byte): sextet { b0 % 4 * 16 + b1 / 16 }
  function S2(b1: byte, b2: byte): sextet { b1 % 16 * 4 + b2 / 64 }
  function S3(b2: byte): sextet { b2 % 64 }

  function B0(v0: sextet, v1: sextet): byte { v0 as int * 4 + v1 / 16 }
  function B1(v1: sextet, v2: sextet): byte { v1 as int % 16 * 16 + v2 / 4 }
  function B2(v2: sextet, v3: sextet): byte { v2 as int % 4 * 64 + v3 }

  lemma {:induction false} BytesRegrouped(b0: byte, b1: byte, b2: byte)
    ensures B0(S0(b0), S1(b0, b1)) == b0
    ensures B1(S1(b0, b1), S2(b1, b2)) == b1
    ensures B2(S2(b1, b2), S3(b2)) == b2
  {
  }

  lemma {:induction false} SextetsRegrouped(v0: sextet, v1: sextet, v2: sextet, v3: sextet)
    ensures S0(B0(v0, v1)) == v0
    ensures S1(B0(v0, v1), B1(v1, v2)) == v1
    ensures S2(B1(v1, v2), B2(v2, v3)) == v2
    ensures S3(B2(v2, v3)) == v3
  {
  }

  /** The bits of one to three bytes, cut into sextets and filled up with zeros. */
  function Sextets(b: seq<byte>): (v: seq<sextet>)
    requires 1 <= |b| <= 3
    ensures |v| == |b| + 1
  {
    if |b| == 1 then [S0(b[0]), S1(b[0], 0)]
    else if |b| == 2 then [S0(b[0]), S1(b[0], b[1]), S2(b[1], 0)]
    else [S0(b[0]), S1(b[0], b[1]), S2(b[1], b[2]), S3(b[2])]
  }

  /** The bytes those sextets spell, if the filling is zero. */
  function Bytes(v: seq<sextet>): (b: Option<seq<byte>>)
    requires 2 <= |v| <= 4
    ensures b.Some? ==> |b.value| + 1 == |v|
  {
    if |v| == 2 then
      if B1(v[1], 0) != 0 then None else Some([B0(v[0], v[1])])
    else if |v| == 3 then
      if B2(v[2], 0) != 0 then None else Some([B0(v[0], v[1]), B1(v[1], v[2])])
    else
      Some([B0(v[0], v[1]), B1(v[1], v[2]), B2(v[2], v[3])])
  }

  lemma {:induction false} OneByte(b0: byte)
    ensures B1(S1(b0, 0), 0) == 0 && B0(S0(b0), S1(b0, 0)) == b0
  {
    BytesRegrouped(b0, 0, 0);
  }

  lemma {:induction false} TwoBytes(b0: byte, b1: byte)
    ensures B2(S2(b1, 0), 0) == 0 && B0(S0(b0), S1(b0, b1)) == b0 && B1(S1(b0, b1), S2(b1, 0)) == b1
  {
    BytesRegrouped(b0, b1, 0);
  }

  lemma {:induction false} BytesOfSextets(b: seq<byte>)
    requires 1 <= |b| <= 3
    ensures Bytes(Sextets(b)) == Some(b)
  {
    if |b| == 1 {
      OneByte(b[0]);
      assert b == [b[0]];
    } else if |b| == 2 {
      TwoBytes(b[0], b[1]);
      assert b == [b[0], b[1]];
    } else {
      BytesRegrouped(b[0], b[1], b[2]);
      assert b == [b[0], b[1], b[2]];
    }
  }

  lemma {:induction false} TwoSextets(v0: sextet, v1: sextet)
    requires B1(v1, 0) == 0
    ensures S0(B0(v0, v1)) == v0 && S1(B0(v0, v1), 0) == v1
  {
    SextetsRegrouped(v0, v1, 0, 0);
  }

  lemma {:induction false} ThreeSextets(v0: sextet, v1: sextet, v2: sextet)
    requires B2(v2, 0) == 0
    ensures S0(B0(v0, v1)) == v0 && S1(B0(v0, v1), B1(v1, v2)) == v1 && S2(B1(v1, v2), 0) == v2
  {
    SextetsRegrouped(v0, v1, v2, 0);
  }

  lemma {:induction false} SextetsOfBytes(v: seq<sextet>)
    requires 2 <= |v| <= 4 && Bytes(v).Some?
    ensures Sextets(Bytes(v).value) == v
  {
    if |v| == 2 {
      TwoSextets(v[0], v[1]);
    } else if |v| == 3 {
      ThreeSextets(v[0], v[1], v[2]);
    } else {
      SextetsRegrouped(v[0], v[1], v[2], v[3]);
    }
  }

  function Padding(n: nat): (s: string)
    ensures |s| == n && forall i :: 0 <= i < n ==> s[i] == '='
  {
    if n == 0 then "" else "=" + Padding(n - 1)
  }

  /** One group: three bytes, or the last one or two padded to four characters. */
  function EncodeGroup(a: Alphabet, b: seq<byte>): (s: string)
    requires 1 <= |b| <= 3
    ensures |s| == 4
  {
    Symbols(a, Sextets(b)) + Padding(3 - |b|)
  }

  function Encode(a: Alphabet, b: seq<byte>): (s: string)
    decreases |b|
  {
    if b == [] then ""
    else if |b| <= 3 then EncodeGroup(a, b)
    else EncodeGroup(a, b[..3]) + Encode(a, b[3..])
  }

  /** The number of characters of a group before its padding. */
  function Unpadded(s: string): (n: nat)
    requires |s| == 4
    ensures 2 <= n <= 4
    ensures forall i :: n <= i < 4 ==> s[i] == '='
  {
    if s[3] != '=' then 4 else if s[2] != '=' then 3 else 2
  }

  function DecodeGroup(a: Alphabet, s: string): (b: Option<seq<byte>>)
    requires |s| == 4
    ensures b.Some? ==> 1 <= |b.value| <= 3
  {
    var v := Values(a, s[..Unpadded(s)]);
    if v.None? then None
    else
      assert |Symbols(a, v.value)| == Unpadded(s);
      Bytes(v.value)
  }

  lemma {:induction false} EncodeGroupDecoded(a: Alphabet, s: string)
    requires |s| == 4 && DecodeGroup(a, s).Some?
    ensures EncodeGroup(a, DecodeGroup(a, s).value) == s
  {
    var n := Unpadded(s);
    SextetsOfBytes(Values(a, s[..n]).value);
    assert s == s[..n] + Padding(4 - n);
  }

  lemma {:induction false} DecodeGroupEncoded(a: Alphabet, b: seq<byte>)
    requires 1 <= |b| <= 3
    ensures DecodeGroup(a, EncodeGroup(a, b)) == Some(b)
  {
    var v, s := Sextets(b), EncodeGroup(a, b);
    BytesOfSextets(b);
    ValuesOfSymbols(a, v);
    assert Unpadded(s) == |v| by {
      assert forall i :: 0 <= i < |v| ==> s[i] == Symbols(a, v)[i] && s[i] != '=';
    }
    assert s[..|v|] == Symbols(a, v);
  }

  function Decode(a: Alphabet, s: string): (b: Option<seq<byte>>)
    ensures b.Some? ==> Encode(a, b.value) == s
    decreases |s|
  {
    if s == "" then Some([])
    else if |s| < 4 then None
    else
      var first := DecodeGroup(a, s[..4]);
      if first.None? then None
      else if |s| == 4 then
        assert s[..4] == s;
        EncodeGroupDecoded(a, s);
        first
      else if |first.value| != 3 then None
      else
        EncodeGroupDecoded(a, s[..4]);
        var rest := Decode(a, s[4..]);
        if rest.None? then None
        else
          assert rest.value != [];
          assert (first.value + rest.value)[..3] == first.value && (first.value + rest.value)[3..] == rest.value;
          assert s == s[..4] + s[4..];
          Some(first.value + rest.value)
  }

  /** With what `Decode` ensures, decoding accepts exactly what encoding produces. */
  lemma {:induction false} DecodeEncode(a: Alphabet, b: seq<byte>)
    ensures Decode(a, Encode(a, b)) == Some(b)
    decreases |b|
  {
    if b == [] {
    } else if |b| <= 3 {
      DecodeGroupEncoded(a, b);
      assert EncodeGroup(a, b)[..4] == EncodeGroup(a, b);
    } else {
      DecodeGroupEncoded(a, b[..3]);
      DecodeEncode(a, b[3..]);
      var s := Encode(a, b);
      assert s[..4] == EncodeGroup(a, b[..3]) && s[4..] == Encode(a, b[3..]);
      EncodedIsLong(a, b[3..]);
      assert b[..3] + b[3..] == b;
    }
  }

  lemma {:induction false} EncodedIsLong(a: Alphabet, b: seq<byte>)
    requires b != []
    ensures |Encode(a, b)| >= 4
  {
  }

  /** The alphabets, value by value: letters, digits, and two more. */
  lemma {:induction false} AlphabetIs(a: Alphabet)
    ensures forall v: sextet :: v < 26 ==> Symbol(a, v) as int == 'A' as int + v
    ensures forall v: sextet :: 26 <= v < 52 ==> Symbol(a, v) as int == 'a' as int + (v - 26)
    ensures forall v: sextet :: 52 <= v < 62 ==> Symbol(a, v) as int == '0' as int + (v - 52)
    ensures Symbol(Standard, 62) == '+' && Symbol(Standard, 63) == '/'
    ensures Symbol(UrlSafe, 62) == '-' && Symbol(UrlSafe, 63) == '_'
  {
  }

  lemma {:induction false} GroupIsSpelled(a: Alphabet, b: seq<byte>)
    requires 1 <= |b| <= 3
    ensures
      var s := EncodeGroup(a, b);
      && s[0] == Symbol(a, b[0] / 4)
      && s[1] == Symbol(a, b[0] % 4 * 16 + (if |b| > 1 then b[1] / 16 else 0))
      && s[2] == (if |b| > 1 then Symbol(a, b[1] % 16 * 4 + (if |b| > 2 then b[2] / 64 else 0)) else '=')
      && s[3] == (if |b| > 2 then Symbol(a, b[2] % 64) else '=')
  {
    SymbolsAre(a, Sextets(b));
  }

  lemma {:induction false} SymbolsAre(a: Alphabet, v: seq<sextet>)
    ensures forall i :: 0 <= i < |v| ==> Symbols(a, v)[i] == Symbol(a, v[i])
  {
    if v != [] {
      SymbolsAre(a, v[1..]);
    }
  }

  lemma {:induction false} GroupsFollow(a: Alphabet, group: seq<byte>, rest: seq<byte>)
    requires |group| == 3
    ensures Encode(a, group + rest) == EncodeGroup(a, group) + Encode(a, rest)
    ensures Encode(a, []) == ""
  {
    assert (group + rest)[..3] == group && (group + rest)[3..] == rest;
    if rest == [] {
      assert group + rest == group;
      assert EncodeGroup(a, group) + "" == EncodeGroup(a, group);
    }
  }

  predicate InAlphabet(a: Alphabet, c: char) {
    c == '=' || Value(a, c).Some?
  }

  lemma {:induction false} EncodedInAlphabet(a: Alphabet, b: seq<byte>)
    ensures forall i :: 0 <= i < |Encode(a, b)| ==> InAlphabet(a, Encode(a, b)[i])
    decreases |b|
  {
    if b != [] {
      var group := if |b| <= 3 then b else b[..3];
      GroupInAlphabet(a, group);
      if |b| > 3 {
        EncodedInAlphabet(a, b[3..]);
      }
    }
  }

  lemma {:induction false} GroupInAlphabet(a: Alphabet, b: seq<byte>)
    requires 1 <= |b| <= 3
    ensures forall i :: 0 <= i < 4 ==> InAlphabet(a, EncodeGroup(a, b)[i])
  {
    SymbolsInAlphabet(a, Sextets(b));
  }

  lemma {:induction false} SymbolsInAlphabet(a: Alphabet, v: seq<sextet>)
    ensures forall i :: 0 <= i < |v| ==> InAlphabet(a, Symbols(a, v)[i])
  {
    if v != [] {
      ValueOfSymbol(a, v[0]);
      SymbolsInAlphabet(a, v[1..]);
    }
  }
}
