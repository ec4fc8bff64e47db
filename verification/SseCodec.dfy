/** The codec of the bridge between the app and the shared crate: values are written
    one after the other, lists and strings behind a 32-bit length, options behind a
    flag. */
module SseCodec {
  import opened Wrappers
  import Utf8

  // ---------------------------------------------------------------------------
  // Shapes and values
  // ---------------------------------------------------------------------------

  /** The types the bridge encodes: every structure and tuple has two fields, and the
      only enumeration is that of the six shell functions. */
  datatype Shape =
    | U8 | I32 | F64 | Bool | Unit | Text | ShellFuncKind
    | ListOf(elem: Shape) | OptionOf(some: Shape) | Pair(first: Shape, second: Shape)

  datatype Value =
    | Byte(octet: byte)
    | Int(number: int)
    | Double(bits: seq<byte>)
    | Flag(flag: bool)
    | Nothing
    | Str(text: string)
    | Kind(variant: nat)
    | List(items: seq<Value>)
    | Maybe(value: Option<Value>)
    | Two(left: Value, right: Value)

  const I32_LIMIT := 0x8000_0000
  const U32 := 0x1_0000_0000

  predicate IsI32(n: int) {
    -I32_LIMIT <= n < I32_LIMIT
  }

  predicate HasShape(v: Value, s: Shape)
    decreases s, 0
  {
    match s
    case U8 => v.Byte?
    case I32 => v.Int? && IsI32(v.number)
    case F64 => v.Double? && |v.bits| == 8
    case Bool => v.Flag?
    case Unit => v.Nothing?
    case Text => v.Str?
    case ShellFuncKind => v.Kind? && v.variant < 6
    case ListOf(elem) => v.List? && AllHaveShape(v.items, elem)
    case OptionOf(some) => v.Maybe? && (v.value.Some? ==> HasShape(v.value.value, some))
    case Pair(first, second) => v.Two? && HasShape(v.left, first) && HasShape(v.right, second)
  }

  predicate AllHaveShape(items: seq<Value>, s: Shape)
    decreases s, |items|
  {
    items == [] || (HasShape(items[0], s) && AllHaveShape(items[1..], s))
  }

  // ---------------------------------------------------------------------------
  // The wire
  // ---------------------------------------------------------------------------

  /** A length, or any integer, cast to 32 bits signed. */
  function AsI32(n: int): (r: int)
    ensures IsI32(r)
  {
    var u := n % U32;
    if u < I32_LIMIT then u else u - U32
  }

  /** Little-endian, as on every platform the app runs on. */
  function I32Bytes(n: int): (b: seq<byte>)
    ensures |b| == 4
  {
    var u := n % U32;
    [u % 256, u / 256 % 256, u / 65536 % 256, u / 16777216]
  }

  function I32Of(b: seq<byte>): (n: int)
    requires |b| == 4
    ensures IsI32(n)
  {
    AsI32(b[0] as int + 256 * (b[1] as int) + 65536 * (b[2] as int) + 16777216 * (b[3] as int))
  }

  /** A length keeps its value up to 2^31 and loses it from there on. */
  lemma {:induction false} LengthKept(n: nat)
    ensures n < I32_LIMIT ==> AsI32(n) == n
    ensures n >= I32_LIMIT ==> AsI32(n) < n
  {
  }

  lemma {:induction false} FourDigits(u: nat)
    requires u < U32
    ensures u % 256 + 256 * (u / 256 % 256) + 65536 * (u / 65536 % 256) + 16777216 * (u / 16777216) == u
  {
    assert u == u % 256 + 256 * (u / 256);
    assert u / 256 == u / 256 % 256 + 256 * (u / 65536);
    assert u / 65536 == u / 65536 % 256 + 256 * (u / 16777216);
  }

  lemma {:induction false} I32RoundTrip(n: int)
    ensures I32Of(I32Bytes(n)) == AsI32(n)
  {
    FourDigits(n % U32);
  }

  function Encode(v: Value, s: Shape): seq<byte>
    requires HasShape(v, s)
    decreases s, 0
  {
    match s
    case U8 => [v.octet]
    case I32 => I32Bytes(v.number)
    case F64 => v.bits
    case Bool => [if v.flag then 1 else 0]
    case Unit => []
    case Text => I32Bytes(|Utf8.Encode(v.text)|) + Utf8.Encode(v.text)
    case ShellFuncKind => I32Bytes(v.variant)
    case ListOf(elem) => I32Bytes(|v.items|) + EncodeAll(v.items, elem)
    case OptionOf(some) => if v.value.Some? then [1] + Encode(v.value.value, some) else [0]
    case Pair(first, second) => Encode(v.left, first) + Encode(v.right, second)
  }

  /** Four bytes that spell a 32-bit word, the lowest first. */
  predicate SpellsWord(b: seq<byte>, word: nat) {
    |b| == 4 && b[0] as int + 0x100 * (b[1] as int) + 0x1_0000 * (b[2] as int) + 0x100_0000 * (b[3] as int) == word
  }

  lemma {:induction false} WordIsSpelled(n: int)
    ensures IsI32(n) ==> SpellsWord(I32Bytes(n), if n < 0 then n + U32 else n)
    ensures 0 <= n < U32 ==> SpellsWord(I32Bytes(n), n)
  {
    FourDigits(n % U32);
  }

  /** How each type is laid out: one byte for a byte and for a flag, eight for a double,
      a word for a number and for a variant's index, none for nothing; a word with the
      length before a text's bytes and before a list's items; a flag before what is
      optional; and the first field before the second. */
  lemma {:induction false} Layout(v: Value, s: Shape)
    requires HasShape(v, s)
    ensures
      var b := Encode(v, s);
      match s
      case U8 => b == [v.octet]
      case I32 => SpellsWord(b, if v.number < 0 then v.number + U32 else v.number)
      case F64 => b == v.bits && |b| == 8
      case Bool => |b| == 1 && (b[0] == 1 <==> v.flag) && (b[0] == 0 <==> !v.flag)
      case Unit => b == []
      case Text =>
        |b| >= 4 && b[4..] == Utf8.Encode(v.text) && (|b| - 4 < U32 ==> SpellsWord(b[..4], |b| - 4))
      case ShellFuncKind => SpellsWord(b, v.variant)
      case ListOf(elem) =>
        |b| >= 4 && b[4..] == EncodeAll(v.items, elem) && (|v.items| < U32 ==> SpellsWord(b[..4], |v.items|))
      case OptionOf(some) =>
        if v.value.None? then b == [0] else |b| >= 1 && b[0] == 1 && b[1..] == Encode(v.value.value, some)
      case Pair(first, second) =>
        var n := |Encode(v.left, first)|;
        n <= |b| && b[..n] == Encode(v.left, first) && b[n..] == Encode(v.right, second)
  {
    match s
    case I32 => WordIsSpelled(v.number);
    case Text => WordIsSpelled(|Utf8.Encode(v.text)|);
    case ShellFuncKind => WordIsSpelled(v.variant);
    case ListOf(_) => WordIsSpelled(|v.items|);
    case _ =>
  }

  lemma {:induction false} ItemsAreLaidInOrder(x: Value, more: seq<Value>, s: Shape)
    requires HasShape(x, s) && AllHaveShape(more, s) && AllHaveShape([x] + more, s)
    ensures EncodeAll([], s) == [] && EncodeAll([x] + more, s) == Encode(x, s) + EncodeAll(more, s)
  {
    assert ([x] + more)[1..] == more;
  }

  function EncodeAll(items: seq<Value>, s: Shape): seq<byte>
    requires AllHaveShape(items, s)
    decreases s, |items|
  {
    if items == [] then [] else Encode(items[0], s) + EncodeAll(items[1..], s)
  }

  /** A value and the bytes after it, or `None` where the decoder panics. */
  type Decoded = Option<(Value, seq<byte>)>

  function DecodeI32(b: seq<byte>): Option<(int, seq<byte>)> {
    if |b| < 4 then None else Some((I32Of(b[..4]), b[4..]))
  }

  function Decode(s: Shape, b: seq<byte>): Decoded
    decreases s, 0
  {
    match s
    case U8 => if b == [] then None else Some((Byte(b[0]), b[1..]))
    case I32 =>
      var n := DecodeI32(b);
      if n.None? then None else Some((Int(n.value.0), n.value.1))
    case F64 => if |b| < 8 then None else Some((Double(b[..8]), b[8..]))
    case Bool => if b == [] then None else Some((Flag(b[0] != 0), b[1..]))
    case Unit => Some((Nothing, b))
    case Text =>
      var n := DecodeI32(b);
      if n.None? || n.value.0 < 0 || |n.value.1| < n.value.0 then None
      else
        var text := Utf8.Decode(n.value.1[..n.value.0]);
        if text.None? then None else Some((Str(text.value), n.value.1[n.value.0..]))
    case ShellFuncKind =>
      var n := DecodeI32(b);
      if n.None? || !(0 <= n.value.0 < 6) then None else Some((Kind(n.value.0), n.value.1))
    case ListOf(elem) =>
      var n := DecodeI32(b);
      if n.None? || n.value.0 < 0 then None
      else
        var items := DecodeMany(elem, n.value.0, n.value.1);
        if items.None? then None else Some((List(items.value.0), items.value.1))
    case OptionOf(some) =>
      if b == [] then None
      else if b[0] == 0 then Some((Maybe(None), b[1..]))
      else
        var inner := Decode(some, b[1..]);
        if inner.None? then None else Some((Maybe(Some(inner.value.0)), inner.value.1))
    case Pair(first, second) =>
      var x := Decode(first, b);
      if x.None? then None
      else
        var y := Decode(second, x.value.1);
        if y.None? then None else Some((Two(x.value.0, y.value.0), y.value.1))
  }

  function DecodeMany(s: Shape, n: nat, b: seq<byte>): (r: Option<(seq<Value>, seq<byte>)>)
    ensures r.Some? ==> |r.value.0| == n
    decreases s, n
  {
    if n == 0 then Some(([], b))
    else
      var x := Decode(s, b);
      if x.None? then None
      else
        var more := DecodeMany(s, n - 1, x.value.1);
        if more.None? then None else Some(([x.value.0] + more.value.0, more.value.1))
  }

  predicate IsSuffix(rest: seq<byte>, b: seq<byte>) {
    |rest| <= |b| && b[|b| - |rest|..] == rest
  }

  lemma {:induction false} SuffixOfSuffix(c: seq<byte>, b: seq<byte>, a: seq<byte>)
    requires IsSuffix(c, b) && IsSuffix(b, a)
    ensures IsSuffix(c, a)
  {
    assert a[|a| - |c|..] == a[|a| - |b|..][|b| - |c|..];
  }

  /** Whatever the bytes are, what is decoded has the shape asked for, and what is left
      is their end. */
  lemma {:induction false} DecodedHasShape(s: Shape, b: seq<byte>)
    requires Decode(s, b).Some?
    ensures HasShape(Decode(s, b).value.0, s) && IsSuffix(Decode(s, b).value.1, b)
    decreases s, 0
  {
    var rest := Decode(s, b).value.1;
    match s
    case ListOf(elem) =>
      var n := DecodeI32(b).value;
      ManyHaveShape(elem, n.0, n.1);
      SuffixOfSuffix(rest, n.1, b);
    case OptionOf(some) =>
      if b[0] != 0 {
        DecodedHasShape(some, b[1..]);
        SuffixOfSuffix(rest, b[1..], b);
      }
    case Pair(first, second) =>
      DecodedHasShape(first, b);
      DecodedHasShape(second, Decode(first, b).value.1);
      SuffixOfSuffix(rest, Decode(first, b).value.1, b);
    case _ =>
  }

  lemma {:induction false} ManyHaveShape(s: Shape, n: nat, b: seq<byte>)
    requires DecodeMany(s, n, b).Some?
    ensures AllHaveShape(DecodeMany(s, n, b).value.0, s) && IsSuffix(DecodeMany(s, n, b).value.1, b)
    decreases s, n
  {
    if n > 0 {
      var x := Decode(s, b).value;
      var more := DecodeMany(s, n - 1, x.1).value;
      DecodedHasShape(s, b);
      ManyHaveShape(s, n - 1, x.1);
      OneMoreHasShape(x.0, more.0, s);
      SuffixOfSuffix(more.1, x.1, b);
    }
  }

  lemma {:induction false} OneMoreHasShape(x: Value, more: seq<Value>, s: Shape)
    requires HasShape(x, s) && AllHaveShape(more, s)
    ensures AllHaveShape([x] + more, s)
  {
    assert ([x] + more)[1..] == more;
  }

  // ---------------------------------------------------------------------------
  // The round trip
  // ---------------------------------------------------------------------------

  /** Every string and list in the value is short enough for its length to fit. */
  predicate Fits(v: Value, s: Shape)
    requires HasShape(v, s)
    decreases s, 0
  {
    match s
    case Text => |Utf8.Encode(v.text)| < I32_LIMIT
    case ListOf(elem) => |v.items| < I32_LIMIT && AllFit(v.items, elem)
    case OptionOf(some) => v.value.Some? ==> Fits(v.value.value, some)
    case Pair(first, second) => Fits(v.left, first) && Fits(v.right, second)
    case _ => true
  }

  predicate AllFit(items: seq<Value>, s: Shape)
    requires AllHaveShape(items, s)
    decreases s, |items|
  {
    items == [] || (Fits(items[0], s) && AllFit(items[1..], s))
  }

  lemma {:induction false} LengthDecoded(n: int, rest: seq<byte>)
    ensures DecodeI32(I32Bytes(n) + rest) == Some((AsI32(n), rest))
  {
    I32RoundTrip(n);
    assert (I32Bytes(n) + rest)[..4] == I32Bytes(n) && (I32Bytes(n) + rest)[4..] == rest;
  }

  ghost predicate ReadsBack(v: Value, s: Shape, rest: seq<byte>)
    requires HasShape(v, s)
  {
    Decode(s, Encode(v, s) + rest) == Some((v, rest))
  }

  /** The first thing that is decoded is not `v`. */
  ghost predicate Misread(v: Value, s: Shape, rest: seq<byte>)
    requires HasShape(v, s)
  {
    var d := Decode(s, Encode(v, s) + rest);
    d.Some? ==> d.value.0 != v
  }

  lemma {:induction false} LongTextIsMisread(bytes: seq<byte>, n: nat, text: string)
    requires n <= |bytes| && n != |Utf8.Encode(text)|
    ensures Utf8.Decode(bytes[..n]) != Some(text)
  {
    Utf8.DecodesExactlyEncodings(bytes[..n], text);
  }

  lemma {:induction false} TextAt(b: seq<byte>, n: int, after: seq<byte>)
    requires DecodeI32(b) == Some((n, after))
    ensures Decode(Text, b)
         == if n < 0 || |after| < n || Utf8.Decode(after[..n]).None? then None
            else Some((Str(Utf8.Decode(after[..n]).value), after[n..]))
  {
  }

  lemma {:induction false} TextDecoded(text: string, rest: seq<byte>)
    ensures
      var bytes := Utf8.Encode(text);
      var n, after := AsI32(|bytes|), bytes + rest;
      Decode(Text, I32Bytes(|bytes|) + bytes + rest)
      == if n < 0 || |after| < n || Utf8.Decode(after[..n]).None? then None
         else Some((Str(Utf8.Decode(after[..n]).value), after[n..]))
  {
    var bytes := Utf8.Encode(text);
    LengthDecoded(|bytes|, bytes + rest);
    Regroup(I32Bytes(|bytes|), bytes, rest);
    TextAt(I32Bytes(|bytes|) + (bytes + rest), AsI32(|bytes|), bytes + rest);
  }

  lemma {:induction false} ShortText(text: string, rest: seq<byte>)
    requires |Utf8.Encode(text)| < I32_LIMIT
    ensures Decode(Text, I32Bytes(|Utf8.Encode(text)|) + Utf8.Encode(text) + rest) == Some((Str(text), rest))
  {
    var bytes := Utf8.Encode(text);
    TextDecoded(text, rest);
    LengthKept(|bytes|);
    Utf8.DecodeEncode(text);
    assert (bytes + rest)[..|bytes|] == bytes && (bytes + rest)[|bytes|..] == rest;
  }

  lemma {:induction false} LongText(text: string, rest: seq<byte>)
    requires |Utf8.Encode(text)| >= I32_LIMIT
    ensures
      var d := Decode(Text, I32Bytes(|Utf8.Encode(text)|) + Utf8.Encode(text) + rest);
      d.Some? ==> d.value.0 != Str(text)
  {
    var bytes := Utf8.Encode(text);
    var n, after := AsI32(|bytes|), bytes + rest;
    TextDecoded(text, rest);
    LengthKept(|bytes|);
    if 0 <= n <= |after| {
      LongTextIsMisread(after, n, text);
    }
  }

  lemma {:induction false} TextReadsBack(v: Value, rest: seq<byte>)
    requires HasShape(v, Text)
    ensures Fits(v, Text) ==> ReadsBack(v, Text, rest)
    ensures !Fits(v, Text) ==> Misread(v, Text, rest)
  {
    if |Utf8.Encode(v.text)| < I32_LIMIT {
      ShortText(v.text, rest);
    } else {
      LongText(v.text, rest);
    }
  }

  lemma {:induction false} RoundTrip(v: Value, s: Shape, rest: seq<byte>)
    requires HasShape(v, s)
    ensures Fits(v, s) ==> ReadsBack(v, s, rest)
    ensures !Fits(v, s) ==> Misread(v, s, rest)
    decreases s, 1
  {
    match s
    case U8 => ScalarReadsBack(v, s, rest);
    case Bool => ScalarReadsBack(v, s, rest);
    case Unit => ScalarReadsBack(v, s, rest);
    case F64 => ScalarReadsBack(v, s, rest);
    case I32 => WordReadsBack(v, s, rest);
    case ShellFuncKind => WordReadsBack(v, s, rest);
    case Text => TextReadsBack(v, rest);
    case ListOf(elem) => ListRoundTrip(v, elem, rest);
    case OptionOf(some) => OptionRoundTrip(v, some, rest);
    case Pair(first, second) => PairRoundTrip(v, first, second, rest);
  }

  lemma {:induction false} WordKept(n: int)
    requires IsI32(n)
    ensures AsI32(n) == n
  {
  }

  lemma {:induction false} WordReadsBack(v: Value, s: Shape, rest: seq<byte>)
    requires HasShape(v, s) && (s.I32? || s.ShellFuncKind?)
    ensures ReadsBack(v, s, rest)
  {
    var n := if s.I32? then v.number else v.variant;
    LengthDecoded(n, rest);
    WordKept(n);
  }

  lemma {:induction false} ScalarReadsBack(v: Value, s: Shape, rest: seq<byte>)
    requires HasShape(v, s) && (s.U8? || s.Bool? || s.Unit? || s.F64?)
    ensures ReadsBack(v, s, rest)
  {
    var b := Encode(v, s);
    assert (b + rest)[|b|..] == rest && (b + rest)[..|b|] == b;
    assert b + rest == (b + rest)[0..];
  }

  lemma {:induction false} NoneDecoded(v: Value, some: Shape, rest: seq<byte>)
    requires HasShape(v, OptionOf(some)) && v.value.None?
    ensures Decode(OptionOf(some), Encode(v, OptionOf(some)) + rest) == Some((Maybe(None), rest))
  {
    assert ([0] + rest)[1..] == rest;
  }

  lemma {:induction false} SomeDecoded(v: Value, some: Shape, rest: seq<byte>)
    requires HasShape(v, OptionOf(some)) && v.value.Some?
    ensures
      var inner := Decode(some, Encode(v.value.value, some) + rest);
      Decode(OptionOf(some), Encode(v, OptionOf(some)) + rest)
      == if inner.None? then None else Some((Maybe(Some(inner.value.0)), inner.value.1))
  {
    var body := Encode(v.value.value, some);
    assert Encode(v, OptionOf(some)) == [1] + body;
    assert ([1] + body + rest)[0] == 1 && ([1] + body + rest)[1..] == body + rest;
  }

  lemma {:induction false} OptionRoundTrip(v: Value, some: Shape, rest: seq<byte>)
    requires HasShape(v, OptionOf(some))
    ensures Fits(v, OptionOf(some)) ==> ReadsBack(v, OptionOf(some), rest)
    ensures !Fits(v, OptionOf(some)) ==> Misread(v, OptionOf(some), rest)
    decreases OptionOf(some), 0
  {
    if v.value.Some? {
      RoundTrip(v.value.value, some, rest);
      SomeDecoded(v, some, rest);
    } else {
      NoneDecoded(v, some, rest);
    }
  }

  lemma {:induction false} PairRoundTrip(v: Value, first: Shape, second: Shape, rest: seq<byte>)
    requires HasShape(v, Pair(first, second))
    ensures Fits(v, Pair(first, second)) ==> ReadsBack(v, Pair(first, second), rest)
    ensures !Fits(v, Pair(first, second)) ==> Misread(v, Pair(first, second), rest)
    decreases Pair(first, second), 0
  {
    var x, y := Encode(v.left, first), Encode(v.right, second);
    assert x + y + rest == x + (y + rest);
    RoundTrip(v.left, first, y + rest);
    RoundTrip(v.right, second, rest);
  }

  ghost predicate ManyReadBack(items: seq<Value>, s: Shape, rest: seq<byte>)
    requires AllHaveShape(items, s)
  {
    DecodeMany(s, |items|, EncodeAll(items, s) + rest) == Some((items, rest))
  }

  ghost predicate ManyMisread(items: seq<Value>, s: Shape, rest: seq<byte>)
    requires AllHaveShape(items, s)
  {
    var d := DecodeMany(s, |items|, EncodeAll(items, s) + rest);
    d.Some? ==> d.value.0 != items
  }

  lemma {:induction false} ManyRoundTrip(items: seq<Value>, s: Shape, rest: seq<byte>)
    requires AllHaveShape(items, s)
    ensures AllFit(items, s) ==> ManyReadBack(items, s, rest)
    ensures !AllFit(items, s) ==> ManyMisread(items, s, rest)
    decreases s, |items| + 2
  {
    if items == [] {
      assert EncodeAll(items, s) + rest == rest;
    } else {
      var x, more := items[0], items[1..];
      RoundTrip(x, s, EncodeAll(more, s) + rest);
      ManyRoundTrip(more, s, rest);
      OneThenMany(x, more, s, rest);
      assert items == [x] + more;
    }
  }

  lemma {:induction false} OneThenMany(x: Value, more: seq<Value>, s: Shape, rest: seq<byte>)
    requires HasShape(x, s) && AllHaveShape(more, s) && AllHaveShape([x] + more, s)
    ensures
      var after := EncodeAll(more, s) + rest;
      && (ReadsBack(x, s, after) && ManyReadBack(more, s, rest) ==> ManyReadBack([x] + more, s, rest))
      && (Misread(x, s, after) || (ReadsBack(x, s, after) && ManyMisread(more, s, rest)) ==> ManyMisread([x] + more, s, rest))
  {
    var items, after := [x] + more, EncodeAll(more, s) + rest;
    assert items[1..] == more;
    assert Encode(x, s) + EncodeAll(more, s) + rest == Encode(x, s) + after;
    var bytes := Encode(x, s) + after;
    var d := Decode(s, bytes);
    if d.Some? {
      var tail := DecodeMany(s, |more|, d.value.1);
      if tail.Some? {
        ManyAhead(s, |more|, bytes);
      }
    }
  }

  lemma {:induction false} ManyAhead(s: Shape, n: nat, b: seq<byte>)
    requires Decode(s, b).Some? && DecodeMany(s, n, Decode(s, b).value.1).Some?
    ensures
      var first := Decode(s, b).value;
      var rest, many := DecodeMany(s, n, first.1).value, DecodeMany(s, n + 1, b);
      && many == Some(([first.0] + rest.0, rest.1))
      && many.value.0[0] == first.0 && many.value.0[1..] == rest.0
  {
  }

  function AsList(many: Option<(seq<Value>, seq<byte>)>): Decoded {
    if many.None? then None else Some((List(many.value.0), many.value.1))
  }

  lemma {:induction false} ListAt(elem: Shape, b: seq<byte>, n: int, after: seq<byte>)
    requires DecodeI32(b) == Some((n, after))
    ensures Decode(ListOf(elem), b) == if n < 0 then None else AsList(DecodeMany(elem, n, after))
  {
  }

  lemma {:induction false} ListDecoded(v: Value, elem: Shape, rest: seq<byte>)
    requires HasShape(v, ListOf(elem))
    ensures
      var n := AsI32(|v.items|);
      Decode(ListOf(elem), Encode(v, ListOf(elem)) + rest)
      == if n < 0 then None else AsList(DecodeMany(elem, n, EncodeAll(v.items, elem) + rest))
  {
    var body := EncodeAll(v.items, elem);
    LengthDecoded(|v.items|, body + rest);
    Regroup(I32Bytes(|v.items|), body, rest);
    ListAt(elem, I32Bytes(|v.items|) + (body + rest), AsI32(|v.items|), body + rest);
  }

  lemma {:induction false} ListOfManyReadBack(v: Value, elem: Shape, rest: seq<byte>)
    requires HasShape(v, ListOf(elem)) && |v.items| < I32_LIMIT
    ensures ManyReadBack(v.items, elem, rest) ==> ReadsBack(v, ListOf(elem), rest)
    ensures ManyMisread(v.items, elem, rest) ==> Misread(v, ListOf(elem), rest)
  {
    var many := DecodeMany(elem, |v.items|, EncodeAll(v.items, elem) + rest);
    ListDecoded(v, elem, rest);
    LengthKept(|v.items|);
    assert Decode(ListOf(elem), Encode(v, ListOf(elem)) + rest) == AsList(many);
    assert v == List(v.items);
  }

  lemma {:induction false} LongListIsMisread(v: Value, elem: Shape, rest: seq<byte>)
    requires HasShape(v, ListOf(elem)) && |v.items| >= I32_LIMIT
    ensures Misread(v, ListOf(elem), rest)
  {
    ListDecoded(v, elem, rest);
    LengthKept(|v.items|);
  }

  lemma {:induction false} ListRoundTrip(v: Value, elem: Shape, rest: seq<byte>)
    requires HasShape(v, ListOf(elem))
    ensures Fits(v, ListOf(elem)) ==> ReadsBack(v, ListOf(elem), rest)
    ensures !Fits(v, ListOf(elem)) ==> Misread(v, ListOf(elem), rest)
    decreases ListOf(elem), 0
  {
    if |v.items| < I32_LIMIT {
      ManyRoundTrip(v.items, elem, rest);
      ListOfManyReadBack(v, elem, rest);
    } else {
      LongListIsMisread(v, elem, rest);
    }
  }

  /** The round trip: whatever bytes follow, decoding what was encoded gives the value
      back and leaves exactly those bytes, if and only if every length in it is below
      2^31. A longer one is cut to 32 bits, and another value or none is read. */
  lemma {:induction false} DecodesExactlyWhatFits(v: Value, s: Shape, rest: seq<byte>)
    requires HasShape(v, s)
    ensures Decode(s, Encode(v, s) + rest) == Some((v, rest)) <==> Fits(v, s)
  {
    RoundTrip(v, s, rest);
  }

  // ---------------------------------------------------------------------------
  // Maps
  // ---------------------------------------------------------------------------

  datatype Key = Key(text: string)

  /** A map of strings travels as the list of its pairs, in any order. */
  ghost predicate Pairs(m: map<Key, string>, items: seq<Value>) {
    && AllHaveShape(items, Pair(Text, Text))
    && (forall i, j :: 0 <= i < j < |items| ==> KeyOf(items[i]) != KeyOf(items[j]))
    && (forall i :: 0 <= i < |items| ==> KeyOf(items[i]) in m && m[KeyOf(items[i])] == TextOf(items[i]))
    && (forall k <- m :: exists i :: 0 <= i < |items| && KeyOf(items[i]) == k)
  }

  function KeyOf(v: Value): Key {
    if v.Two? && v.left.Str? then Key(v.left.text) else Key("")
  }

  function TextOf(v: Value): string {
    if v.Two? && v.right.Str? then v.right.text else ""
  }

  /** Collecting pairs into a map, the last of a key winning. */
  function Collect(items: seq<Value>): map<Key, string> {
    if items == [] then map[]
    else Collect(items[..|items| - 1])[KeyOf(items[|items| - 1]) := TextOf(items[|items| - 1])]
  }

  lemma {:induction false} CollectedKey(items: seq<Value>, k: Key)
    ensures k in Collect(items) <==> exists i :: 0 <= i < |items| && KeyOf(items[i]) == k
    ensures k in Collect(items) ==> exists i :: 0 <= i < |items| && KeyOf(items[i]) == k && TextOf(items[i]) == Collect(items)[k]
  {
    if items != [] {
      var n := |items| - 1;
      var init := items[..n];
      CollectedKey(init, k);
      assert KeyOf(items[n]) == k ==> k in Collect(items);
      if k in Collect(init) && KeyOf(items[n]) != k {
        var i :| 0 <= i < |init| && KeyOf(init[i]) == k && TextOf(init[i]) == Collect(init)[k];
        assert items[i] == init[i];
      }
      if i :| 0 <= i < |items| && KeyOf(items[i]) == k {
        if i < n {
          assert init[i] == items[i];
        }
      }
    }
  }

  /** Whatever order a map is listed in, its list decodes, and collects, to the map. */
  lemma {:induction false} MapRoundTrip(m: map<Key, string>, items: seq<Value>, rest: seq<byte>)
    requires Pairs(m, items) && Fits(List(items), ListOf(Pair(Text, Text)))
    ensures
      var s := ListOf(Pair(Text, Text));
      Decode(s, Encode(List(items), s) + rest) == Some((List(items), rest)) && Collect(items) == m
  {
    RoundTrip(List(items), ListOf(Pair(Text, Text)), rest);
    CollectsTheMap(m, items);
  }

  lemma {:induction false} CollectsTheMap(m: map<Key, string>, items: seq<Value>)
    requires Pairs(m, items)
    ensures Collect(items) == m
  {
    forall k
      ensures k in Collect(items) <==> k in m
      ensures k in m ==> Collect(items)[k] == m[k]
    {
      CollectedKey(items, k);
    }
  }

  // ---------------------------------------------------------------------------
  // The serializer and the deserializer
  // ---------------------------------------------------------------------------

  lemma {:induction false} EncodeAllOneMore(items: seq<Value>, i: nat, s: Shape)
    requires i < |items| && AllHaveShape(items[i..], s)
    ensures HasShape(items[i], s) && AllHaveShape(items[i + 1..], s)
    ensures EncodeAll(items[i..], s) == Encode(items[i], s) + EncodeAll(items[i + 1..], s)
  {
    assert items[i..][0] == items[i] && items[i..][1..] == items[i + 1..];
  }

  class Serializer {
    var written: seq<byte>

    constructor ()
      ensures written == []
    {
      written := [];
    }

    method WriteU8(b: byte)
      modifies this
      ensures written == old(written) + [b]
    {
      written := written + [b];
    }

    method WriteI32(n: int)
      modifies this
      ensures written == old(written) + I32Bytes(n)
    {
      var u := n % U32;
      written := written + [u % 256, u / 256 % 256, u / 65536 % 256, u / 16777216];
    }

    method WriteText(text: string)
      modifies this
      ensures written == old(written) + (I32Bytes(|Utf8.Encode(text)|) + Utf8.Encode(text))
    {
      var bytes := Utf8.Encode(text);
      WriteI32(|bytes|);
      for i := 0 to |bytes|
        invariant written == old(written) + I32Bytes(|bytes|) + bytes[..i]
      {
        WriteU8(bytes[i]);
        assert bytes[..i + 1] == bytes[..i] + [bytes[i]];
      }
      assert bytes[..|bytes|] == bytes;
    }

    method Write(v: Value, s: Shape)
      requires HasShape(v, s)
      modifies this
      ensures written == old(written) + Encode(v, s)
      decreases s, 2
    {
      match s
      case U8 => WriteU8(v.octet);
      case I32 => WriteI32(v.number);
      case F64 => written := written + v.bits;
      case Bool => WriteU8(if v.flag then 1 else 0);
      case Unit => assert written + [] == written;
      case Text => WriteText(v.text);
      case ShellFuncKind => WriteI32(v.variant);
      case ListOf(elem) => WriteList(v.items, elem);
      case OptionOf(some) => WriteOption(v, some);
      case Pair(first, second) => WritePair(v, first, second);
    }

    method WriteOption(v: Value, some: Shape)
      requires HasShape(v, OptionOf(some))
      modifies this
      ensures written == old(written) + Encode(v, OptionOf(some))
      decreases some, 3
    {
      WriteU8(if v.value.Some? then 1 else 0);
      if v.value.Some? {
        Regroup(old(written), [1], Encode(v.value.value, some));
        Write(v.value.value, some);
      }
    }

    method WritePair(v: Value, first: Shape, second: Shape)
      requires HasShape(v, Pair(first, second))
      modifies this
      ensures written == old(written) + Encode(v, Pair(first, second))
      decreases Pair(first, second), 1
    {
      Regroup(old(written), Encode(v.left, first), Encode(v.right, second));
      Write(v.left, first);
      Write(v.right, second);
    }

    method WriteList(items: seq<Value>, elem: Shape)
      requires AllHaveShape(items, elem)
      modifies this
      ensures written == old(written) + (I32Bytes(|items|) + EncodeAll(items, elem))
      decreases elem, 3
    {
      WriteI32(|items|);
      ghost var all := old(written) + (I32Bytes(|items|) + EncodeAll(items, elem));
      assert items[0..] == items;
      Regroup(old(written), I32Bytes(|items|), EncodeAll(items, elem));
      for i := 0 to |items|
        invariant AllHaveShape(items[i..], elem)
        invariant written + EncodeAll(items[i..], elem) == all
      {
        EncodeAllOneMore(items, i, elem);
        Regroup(written, Encode(items[i], elem), EncodeAll(items[i + 1..], elem));
        Write(items[i], elem);
      }
      assert items[|items|..] == [] && written + [] == written;
    }
  }

  class Deserializer {
    const input: seq<byte>
    var cursor: nat

    ghost predicate Valid()
      reads this
    {
      cursor <= |input|
    }

    /** The bytes not yet read. */
    function Rest(): seq<byte>
      requires Valid()
      reads this
    {
      input[cursor..]
    }

    constructor (input: seq<byte>)
      ensures Valid() && this.input == input && cursor == 0
    {
      this.input, cursor := input, 0;
    }

    method ReadU8() returns (b: Option<byte>)
      requires Valid()
      modifies this
      ensures Valid()
      ensures b == if old(Rest()) == [] then None else Some(old(Rest())[0])
      ensures b.Some? ==> Rest() == old(Rest())[1..]
    {
      if cursor == |input| {
        return None;
      }
      b := Some(input[cursor]);
      cursor := cursor + 1;
    }

    method ReadI32() returns (n: Option<int>)
      requires Valid()
      modifies this
      ensures Valid()
      ensures n.None? <==> DecodeI32(old(Rest())).None?
      ensures n.Some? ==> DecodeI32(old(Rest())) == Some((n.value, Rest()))
    {
      if |input| - cursor < 4 {
        return None;
      }
      n := Some(I32Of(input[cursor..cursor + 4]));
      assert Rest()[..4] == input[cursor..cursor + 4];
      cursor := cursor + 4;
    }

    /** The length of a list or string; a negative one is where the decoder panics. */
    method ReadLength() returns (n: Option<nat>)
      requires Valid()
      modifies this
      ensures Valid()
      ensures
        var d := DecodeI32(old(Rest()));
        if d.None? || d.value.0 < 0 then n.None? else n == Some(d.value.0) && Rest() == d.value.1
    {
      var word := ReadI32();
      if word.None? || word.value < 0 {
        return None;
      }
      return Some(word.value);
    }

    method ReadText() returns (text: Option<string>)
      requires Valid()
      modifies this
      ensures Valid() && Decoding(Text, old(Rest()), if text.None? then None else Some(Str(text.value)))
    {
      var n := ReadLength();
      if n.None? {
        return None;
      }
      ghost var after := Rest();
      var bytes: seq<byte> := [];
      for i := 0 to n.value
        invariant Valid() && i <= |after| && bytes == after[..i] && Rest() == after[i..]
      {
        var b := ReadU8();
        if b.None? {
          return None;
        }
        bytes := bytes + [b.value];
      }
      return Utf8.Decode(bytes);
    }

    /** `v` is what decoding a value from `b` gives, and the cursor is behind it. */
    ghost predicate Decoding(s: Shape, b: seq<byte>, v: Option<Value>)
      requires Valid()
      reads this
    {
      if v.None? then Decode(s, b).None? else Decode(s, b) == Some((v.value, Rest()))
    }

    method Read(s: Shape) returns (v: Option<Value>)
      requires Valid()
      modifies this
      ensures Valid() && Decoding(s, old(Rest()), v)
      decreases s, 2
    {
      match s
      case ListOf(elem) => v := ReadList(elem);
      case OptionOf(some) => v := ReadOption(some);
      case Pair(first, second) => v := ReadPair(first, second);
      case _ => v := ReadScalar(s);
    }

    method ReadScalar(s: Shape) returns (v: Option<Value>)
      requires Valid() && !s.ListOf? && !s.OptionOf? && !s.Pair?
      modifies this
      ensures Valid() && Decoding(s, old(Rest()), v)
    {
      match s
      case U8 =>
        var b := ReadU8();
        return if b.None? then None else Some(Byte(b.value));
      case Bool =>
        var b := ReadU8();
        return if b.None? then None else Some(Flag(b.value != 0));
      case I32 =>
        var n := ReadI32();
        return if n.None? then None else Some(Int(n.value));
      case ShellFuncKind =>
        var n := ReadI32();
        return if n.None? || !(0 <= n.value < 6) then None else Some(Kind(n.value));
      case F64 =>
        if |input| - cursor < 8 {
          return None;
        }
        v := Some(Double(input[cursor..cursor + 8]));
        assert Rest()[..8] == input[cursor..cursor + 8];
        cursor := cursor + 8;
      case Unit => return Some(Nothing);
      case Text =>
        var text := ReadText();
        return if text.None? then None else Some(Str(text.value));
    }

    method ReadOption(some: Shape) returns (v: Option<Value>)
      requires Valid()
      modifies this
      ensures Valid() && Decoding(OptionOf(some), old(Rest()), v)
      decreases some, 3
    {
      var b := ReadU8();
      if b.None? {
        return None;
      }
      if b.value == 0 {
        return Some(Maybe(None));
      }
      var inner := Read(some);
      return if inner.None? then None else Some(Maybe(Some(inner.value)));
    }

    method ReadPair(first: Shape, second: Shape) returns (v: Option<Value>)
      requires Valid()
      modifies this
      ensures Valid() && Decoding(Pair(first, second), old(Rest()), v)
      decreases Pair(first, second), 1
    {
      var x := Read(first);
      if x.None? {
        return None;
      }
      var y := Read(second);
      return if y.None? then None else Some(Two(x.value, y.value));
    }

    /** Reads as many items as the length says, pushing each. */
    method ReadList(elem: Shape) returns (v: Option<Value>)
      requires Valid()
      modifies this
      ensures Valid() && Decoding(ListOf(elem), old(Rest()), v)
      decreases elem, 4
    {
      var n := ReadLength();
      if n.None? {
        return None;
      }
      var items := ReadItems(elem, n.value);
      return if items.None? then None else Some(List(items.value));
    }

    method ReadItems(elem: Shape, n: nat) returns (items: Option<seq<Value>>)
      requires Valid()
      modifies this
      ensures Valid()
      ensures DecodeMany(elem, n, old(Rest())) == if items.None? then None else Some((items.value, Rest()))
      decreases elem, 3
    {
      ghost var all := DecodeMany(elem, n, Rest());
      var read: seq<Value> := [];
      PrependNothing(all);
      for i := 0 to n
        invariant Valid() && Prepend(read, DecodeMany(elem, n - i, Rest())) == all
      {
        ghost var before := Rest();
        var item := Read(elem);
        ItemRead(elem, n - i, before, item, Rest(), read);
        if item.None? {
          return None;
        }
        read := read + [item.value];
      }
      assert read + [] == read;
      return Some(read);
    }
  }

  function Prepend(items: seq<Value>, more: Option<(seq<Value>, seq<byte>)>): Option<(seq<Value>, seq<byte>)> {
    if more.None? then None else Some((items + more.value.0, more.value.1))
  }

  lemma {:induction false} ManyStep(s: Shape, n: nat, b: seq<byte>)
    requires n > 0
    ensures
      var x := Decode(s, b);
      DecodeMany(s, n, b) == if x.None? then None else Prepend([x.value.0], DecodeMany(s, n - 1, x.value.1))
  {
  }

  /** One turn of the counted loop. */
  lemma {:induction false} ItemRead(s: Shape, n: nat, before: seq<byte>, item: Option<Value>, after: seq<byte>, read: seq<Value>)
    requires n > 0 && Decode(s, before) == if item.None? then None else Some((item.value, after))
    ensures
      Prepend(read, DecodeMany(s, n, before))
      == if item.None? then None else Prepend(read + [item.value], DecodeMany(s, n - 1, after))
  {
    ManyStep(s, n, before);
    if item.Some? {
      PrependOneMore(read, item.value, DecodeMany(s, n - 1, after));
    }
  }

  lemma {:induction false} PrependNothing(more: Option<(seq<Value>, seq<byte>)>)
    ensures Prepend([], more) == more
  {
    assert more.Some? ==> [] + more.value.0 == more.value.0;
  }

  lemma {:induction false} PrependOneMore(items: seq<Value>, item: Value, more: Option<(seq<Value>, seq<byte>)>)
    ensures Prepend(items, Prepend([item], more)) == Prepend(items + [item], more)
  {
    assert more.Some? ==> items + ([item] + more.value.0) == (items + [item]) + more.value.0;
  }
}
