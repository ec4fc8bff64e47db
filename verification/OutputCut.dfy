/** Cutting output and command lines to a number of bytes without splitting a
    character. */
module OutputCut {
  import opened Wrappers
  import opened Text
  import opened Utf8

  const MAX_OUTPUT := 1024 * 1024
  const MAX_LINE := 200
  const ELLIPSIS := "\U{2026}"

  /** Where a cut at `limit` falls when it backs off continuation bytes. */
  ghost predicate BacksOffTo(bytes: seq<byte>, limit: nat, end: nat) {
    && end <= limit < |bytes|
    && (end > 0 ==> !Continues(bytes[end]))
    && (forall i :: end < i <= limit ==> Continues(bytes[i]))
  }

  /** The first `k` characters are the most that `limit` bytes hold. */
  ghost predicate LongestPrefix(s: string, limit: nat, k: nat) {
    k < |s| && |Encode(s[..k])| <= limit < |Encode(s[..k + 1])|
  }

  /** Caps what a command printed. Of bytes that are not UTF-8 it promises no more
      than this; what it is of text, `CutKeepsCharacters` says. */
  method Cap(bytes: seq<byte>) returns (kept: seq<byte>, truncated: bool)
    ensures truncated <==> |bytes| > MAX_OUTPUT
    ensures !truncated ==> kept == bytes
    ensures truncated ==> kept <= bytes && BacksOffTo(bytes, MAX_OUTPUT, |kept|)
  {
    if |bytes| <= MAX_OUTPUT {
      return bytes, false;
    }
    var end := MAX_OUTPUT;
    while end > 0 && 0x80 <= bytes[end] < 0xC0
      invariant 0 <= end <= MAX_OUTPUT
      invariant forall i :: end < i <= MAX_OUTPUT ==> Continues(bytes[i])
    {
      end := end - 1;
    }
    return bytes[..end], true;
  }

  lemma {:induction false} EncodeOneMore(s: string, k: nat)
    requires k < |s|
    ensures Encode(s[..k + 1]) == Encode(s[..k]) + EncodeChar(s[k])
    ensures Encode(s) == Encode(s[..k]) + EncodeChar(s[k]) + Encode(s[k + 1..])
  {
    assert s[..k + 1] == s[..k] + [s[k]];
    EncodeConcat(s[..k], [s[k]]);
    EncodeOne(s[k]);
    assert s == s[..k + 1] + s[k + 1..];
    EncodeConcat(s[..k + 1], s[k + 1..]);
  }

  lemma {:induction false} EncodeOne(c: char)
    ensures Encode([c]) == EncodeChar(c)
  {
    assert [c][1..] == "";
    assert EncodeChar(c) + [] == EncodeChar(c);
  }

  lemma {:induction false} PrefixFor(s: string, limit: nat, n: nat) returns (k: nat)
    requires n <= |s| && limit < |Encode(s[..n])|
    ensures LongestPrefix(s, limit, k)
    decreases n
  {
    assert s[..0] == "";
    if n == 0 {
      assert false;
    } else if limit < |Encode(s[..n - 1])| {
      k := PrefixFor(s, limit, n - 1);
    } else {
      k := n - 1;
    }
  }

  /** The bytes around a character: it starts where the ones before it end, and its
      further bytes continue it. */
  lemma {:induction false} CharacterAt(s: string, k: nat)
    requires k < |s|
    ensures
      var bytes, at, width := Encode(s), |Encode(s[..k])|, |EncodeChar(s[k])|;
      && at + width <= |bytes| && |Encode(s[..k + 1])| == at + width
      && bytes[..at] == Encode(s[..k])
      && !Continues(bytes[at])
      && (forall i :: at < i < at + width ==> Continues(bytes[i]))
  {
    EncodeOneMore(s, k);
    CharShape(s[k]);
    var bytes, head, c := Encode(s), Encode(s[..k]), EncodeChar(s[k]);
    assert forall i :: |head| <= i < |head| + |c| ==> bytes[i] == c[i - |head|];
  }

  /** The cut of text is text: exactly as many whole characters as fit, at most three
      bytes short of the limit. */
  lemma {:induction false} CutKeepsCharacters(s: string, limit: nat, end: nat) returns (k: nat)
    requires BacksOffTo(Encode(s), limit, end)
    ensures LongestPrefix(s, limit, k)
    ensures Encode(s)[..end] == Encode(s[..k]) && Decode(Encode(s)[..end]) == Some(s[..k])
    ensures limit - 3 <= end
  {
    assert s[..|s|] == s;
    k := PrefixFor(s, limit, |s|);
    CharacterAt(s, k);
    var bytes, at := Encode(s), |Encode(s[..k])|;
    assert end == at;
    DecodeEncode(s[..k]);
  }

  /** The same, of what a command printed. */
  lemma {:induction false} CappedTextIsText(s: string, kept: seq<byte>)
    requires kept <= Encode(s) && BacksOffTo(Encode(s), MAX_OUTPUT, |kept|)
    ensures exists k: nat :: LongestPrefix(s, MAX_OUTPUT, k) && Decode(kept) == Some(s[..k])
    ensures MAX_OUTPUT - 3 <= |kept|
  {
    var k := CutKeepsCharacters(s, MAX_OUTPUT, |kept|);
    assert kept == Encode(s)[..|kept|];
  }

  // ---------------------------------------------------------------------------
  // The audited line
  // ---------------------------------------------------------------------------

  /** The first line of a command, without its line end. */
  function FirstOf(cmd: string): string {
    var line := SplitOnce(cmd, '\n');
    if line.None? then cmd else WithoutSuffix(line.value.0, "\r")
  }

  /** It is the command up to its first line end, which is a line feed with or without
      a carriage return before it, or all of it if there is none. */
  lemma {:induction false} FirstLineEndsThere(cmd: string) returns (end: string, rest: string)
    ensures cmd == FirstOf(cmd) + end + rest && '\n' !in FirstOf(cmd)
    ensures end == "\n" || end == "\r\n" || (end == "" && rest == "")
    ensures end == "\n" && FirstOf(cmd) != "" ==> FirstOf(cmd)[|FirstOf(cmd)| - 1] != '\r'
  {
    var parts := SplitOnce(cmd, '\n');
    end, rest := "", "";
    if parts.Some? {
      var line := parts.value.0;
      end, rest := if FirstOf(cmd) == line then "\n" else "\r\n", parts.value.1;
      assert FirstOf(cmd) != line ==> line == FirstOf(cmd) + "\r";
    }
  }

  /** Whether a byte index falls between two characters. */
  predicate IsCharBoundary(bytes: seq<byte>, i: nat) {
    i == 0 || i == |bytes| || (i < |bytes| && !Continues(bytes[i]))
  }

  lemma {:induction false} BoundariesAreBetweenCharacters(s: string, i: nat)
    ensures IsCharBoundary(Encode(s), i) <==> exists k :: 0 <= k <= |s| && |Encode(s[..k])| == i
  {
    assert s[..|s|] == s && s[..0] == "";
    forall k | 0 <= k <= |s| && |Encode(s[..k])| == i
      ensures IsCharBoundary(Encode(s), i)
    {
      if k < |s| {
        CharacterAt(s, k);
      }
    }
    if i < |Encode(s)| && IsCharBoundary(Encode(s), i) {
      var k := PrefixFor(s, i, |s|);
      CharacterAt(s, k);
      assert |Encode(s[..k])| == i;
    }
  }

  method FirstLine(cmd: string) returns (r: string)
    ensures
      var line := Trim(FirstOf(cmd));
      if |Encode(line)| <= MAX_LINE then r == line
      else exists k: nat :: LongestPrefix(line, MAX_LINE, k) && r == line[..k] + ELLIPSIS && |Encode(line[..k])| >= MAX_LINE - 3
  {
    var line := Trim(FirstOf(cmd));
    var bytes := Encode(line);
    if |bytes| <= MAX_LINE {
      return line;
    }
    var end := MAX_LINE;
    while !IsCharBoundary(bytes, end)
      invariant 0 <= end <= MAX_LINE
      invariant forall i :: end < i <= MAX_LINE ==> Continues(bytes[i])
      decreases end
    {
      end := end - 1;
    }
    ghost var k := CutKeepsCharacters(line, MAX_LINE, end);
    return Decode(bytes[..end]).value + ELLIPSIS;
  }

  /** How much of any bytes the cap keeps: no more than three short of the limit,
      unless the last four bytes up to the limit all continue a character, which in
      text they cannot. */
  lemma {:induction false} KeptIsNearTheLimit(bytes: seq<byte>, limit: nat, end: nat)
    requires BacksOffTo(bytes, limit, end) && limit >= 4
    ensures end >= limit - 3 <==> exists i :: limit - 3 <= i <= limit && !Continues(bytes[i])
  {
    if end >= limit - 3 {
      assert !Continues(bytes[end]);
    }
  }
}
