/** The string operations the wire formats are built from: splitting into lines,
    stripping, trimming. */
module Text {
  import opened Wrappers

  /** The parts of `s` between occurrences of `sep`; always at least one. */
  function Split(s: string, sep: char): (parts: seq<string>)
    ensures |parts| >= 1
    ensures forall i :: 0 <= i < |parts| ==> sep !in parts[i]
  {
    if s == "" then [""]
    else
      var rest := Split(s[1..], sep);
      if s[0] == sep then [""] + rest else [[s[0]] + rest[0]] + rest[1..]
  }

  /** Every part followed by `end`. */
  function Terminated(parts: seq<string>, end: string): string {
    if parts == [] then "" else parts[0] + end + Terminated(parts[1..], end)
  }

  lemma {:induction false} SplitNothing(s: string, sep: char)
    requires sep !in s
    ensures Split(s, sep) == [s]
  {
    if s != "" {
      SplitNothing(s[1..], sep);
      assert [s[0]] + s[1..] == s;
    }
  }

  lemma {:induction false} SplitAt(s: string, sep: char, t: string)
    ensures Split(s + [sep] + t, sep) == Split(s, sep) + Split(t, sep)
  {
    var all := s + [sep] + t;
    if s == "" {
      assert all[0] == sep && all[1..] == t;
      assert Split("", sep) == [""];
    } else {
      assert all[0] == s[0] && all[1..] == s[1..] + [sep] + t;
      SplitAt(s[1..], sep, t);
    }
  }

  /** Splitting terminated lines gives the lines back, and an empty one after them. */
  lemma {:induction false} SplitTerminated(parts: seq<string>, sep: char)
    requires forall i :: 0 <= i < |parts| ==> sep !in parts[i]
    ensures Split(Terminated(parts, [sep]), sep) == parts + [""]
  {
    if parts != [] {
      SplitTerminated(parts[1..], sep);
      SplitNothing(parts[0], sep);
      SplitAt(parts[0], sep, Terminated(parts[1..], [sep]));
      assert [parts[0]] + (parts[1..] + [""]) == parts + [""];
    }
  }

  function StripPrefix(s: string, prefix: string): (r: Option<string>)
    ensures r.Some? <==> prefix <= s
    ensures r.Some? ==> prefix + r.value == s
  {
    if prefix <= s then Some(s[|prefix|..]) else None
  }

  lemma {:induction false} StripPrefixAdded(prefix: string, s: string)
    ensures StripPrefix(prefix + s, prefix) == Some(s)
  {
  }

  /** `s` without a trailing `suffix`, or unchanged. */
  function WithoutSuffix(s: string, suffix: string): string {
    if |suffix| <= |s| && s[|s| - |suffix|..] == suffix then s[..|s| - |suffix|] else s
  }

  lemma {:induction false} SuffixIsCut(s: string, suffix: string)
    ensures WithoutSuffix(s + suffix, suffix) == s
    ensures (forall t :: t + suffix != s) ==> WithoutSuffix(s, suffix) == s
  {
    if |suffix| <= |s| && s[|s| - |suffix|..] == suffix {
      assert s[..|s| - |suffix|] + suffix == s;
    }
  }

  /** What is before and after the first `sep`. */
  function SplitOnce(s: string, sep: char): (r: Option<(string, string)>)
    ensures r.None? <==> sep !in s
    ensures r.Some? ==> s == r.value.0 + [sep] + r.value.1 && sep !in r.value.0
  {
    if s == "" then None
    else if s[0] == sep then Some(("", s[1..]))
    else
      var rest := SplitOnce(s[1..], sep);
      if rest.None? then None else Some(([s[0]] + rest.value.0, rest.value.1))
  }

  lemma {:induction false} SplitOnceAt(a: string, sep: char, b: string)
    requires sep !in a
    ensures SplitOnce(a + [sep] + b, sep) == Some((a, b))
  {
    var s := a + [sep] + b;
    if a == "" {
      assert s[0] == sep && s[1..] == b;
    } else {
      assert s[0] == a[0] && s[1..] == a[1..] + [sep] + b;
      SplitOnceAt(a[1..], sep, b);
      assert [a[0]] + a[1..] == a;
    }
  }

  /** The Unicode White_Space property. */
  predicate IsSpace(c: char) {
    var n := c as int;
    || 9 <= n <= 13 || n == 0x20 || n == 0x85 || n == 0xA0 || n == 0x1680
    || 0x2000 <= n <= 0x200A || n == 0x2028 || n == 0x2029 || n == 0x202F || n == 0x205F || n == 0x3000
  }

  /** Its 25 code points, one by one. */
  const SPACES := "\t\n\U{B}\U{C}\r \U{85}\U{A0}\U{1680}\U{2000}\U{2001}\U{2002}\U{2003}\U{2004}\U{2005}\U{2006}\U{2007}"
                + "\U{2008}\U{2009}\U{200A}\U{2028}\U{2029}\U{202F}\U{205F}\U{3000}"

  lemma {:induction false} SpacesAreListed(c: char)
    ensures IsSpace(c) <==> c in SPACES
  {
  }

  function TrimStart(s: string): string {
    if s != "" && IsSpace(s[0]) then TrimStart(s[1..]) else s
  }

  function TrimEnd(s: string): string {
    if s != "" && IsSpace(s[|s| - 1]) then TrimEnd(s[..|s| - 1]) else s
  }

  function Trim(s: string): string {
    TrimStart(TrimEnd(s))
  }

  predicate AllSpace(s: string) {
    forall i :: 0 <= i < |s| ==> IsSpace(s[i])
  }

  lemma {:induction false} TrimStartCuts(s: string) returns (cut: string)
    ensures s == cut + TrimStart(s) && AllSpace(cut)
    ensures TrimStart(s) != "" ==> !IsSpace(TrimStart(s)[0])
  {
    cut := "";
    if s != "" && IsSpace(s[0]) {
      var more := TrimStartCuts(s[1..]);
      cut := [s[0]] + more;
      assert s == [s[0]] + s[1..];
    }
  }

  lemma {:induction false} TrimEndCuts(s: string) returns (cut: string)
    ensures s == TrimEnd(s) + cut && AllSpace(cut)
    ensures TrimEnd(s) != "" ==> !IsSpace(TrimEnd(s)[|TrimEnd(s)| - 1])
  {
    cut := "";
    if s != "" && IsSpace(s[|s| - 1]) {
      var more := TrimEndCuts(s[..|s| - 1]);
      cut := more + [s[|s| - 1]];
      assert s == s[..|s| - 1] + [s[|s| - 1]];
    }
  }

  /** Trimming cuts whitespace off both ends, all of it, and nothing else. */
  lemma {:induction false} TrimCuts(s: string) returns (before: string, after: string)
    ensures s == before + Trim(s) + after && AllSpace(before) && AllSpace(after)
    ensures Trim(s) != "" ==> !IsSpace(Trim(s)[0]) && !IsSpace(Trim(s)[|Trim(s)| - 1])
  {
    var kept := TrimEnd(s);
    after := TrimEndCuts(s);
    before := TrimStartCuts(kept);
    assert Trim(s) != "" ==> Trim(s)[|Trim(s)| - 1] == kept[|kept| - 1];
  }

  lemma {:induction false} TrimEndSpace(s: string, c: char)
    requires IsSpace(c)
    ensures Trim(s + [c]) == Trim(s)
  {
    assert (s + [c])[..|s|] == s;
  }

  lemma {:induction false} BlankIsTrimmed(s: string)
    ensures Trim(s) == "" <==> AllSpace(s)
  {
    var before, after := TrimCuts(s);
    assert Trim(s) != "" ==> s[|before|] == Trim(s)[0];
  }

  /** Blanks in front are cut. */
  lemma {:induction false} TrimBlank(blank: string, s: string)
    requires AllSpace(blank) && Trim(s) == s
    ensures Trim(blank + s) == s
  {
    var all := blank + s;
    if s == "" {
      BlankIsTrimmed(all);
    } else {
      var x, y := TrimCuts(s);
      assert !IsSpace(s[0]) && !IsSpace(s[|s| - 1]);
      assert all[|all| - 1] == s[|s| - 1];
      TrimStartBlank(blank, s);
    }
  }

  lemma {:induction false} TrimStartBlank(blank: string, s: string)
    requires AllSpace(blank) && s != "" && !IsSpace(s[0])
    ensures TrimStart(blank + s) == s
  {
    if blank == "" {
      assert blank + s == s;
    } else {
      assert (blank + s)[1..] == blank[1..] + s;
      TrimStartBlank(blank[1..], s);
    }
  }

  /** What stands between two characters that are not blank stays. */
  lemma {:induction false} TrimKeepsInside(a: string, c: char, b: string)
    requires Trim(a) != "" && Trim(b) != ""
    ensures c in Trim(a + [c] + b)
  {
    var s := a + [c] + b;
    var before, after := TrimCuts(s);
    var trimmed := Trim(s);
    BlankIsTrimmed(a);
    BlankIsTrimmed(b);
    var i :| 0 <= i < |a| && !IsSpace(a[i]);
    var j :| 0 <= j < |b| && !IsSpace(b[j]);
    var k := |a| + 1 + j;
    assert s[i] == a[i] && s[k] == b[j];
    assert forall n :: 0 <= n < |before| ==> before[n] == s[n];
    assert forall n :: 0 <= n < |after| ==> after[n] == s[|before| + |trimmed| + n];
    assert k - |before| - |trimmed| < |after|;
    assert trimmed[|a| - |before|] == s[|a|] == c;
  }

  lemma {:induction false} TrimAlready(s: string)
    requires s != "" ==> !IsSpace(s[0]) && !IsSpace(s[|s| - 1])
    ensures Trim(s) == s
  {
  }
}
