/** The directory of custom commands: every command is a file, and the names of the
    files, sorted, give the user's order. */
module CustomCmdStore {
  import opened Wrappers
  import opened Text
  import Base64
  import Utf8
  import Script = ScriptSegments

  const ORDER_STEP := 100
  const MAX_NAME_LEN := 64
  const U32 := 0x1_0000_0000
  const DIR_MARKER := "SrvBoxCusCmdDir"

  datatype System = Unix | Windows

  datatype CustomCmd = CustomCmd(name: string, cmd: string)

  // ---------------------------------------------------------------------------
  // File names
  // ---------------------------------------------------------------------------

  function Digit(n: nat): char {
    '0' + (n % 10) as char
  }

  predicate IsDigit(c: char) {
    '0' <= c <= '9'
  }

  predicate AllDigits(s: string) {
    forall i :: 0 <= i < |s| ==> IsDigit(s[i])
  }

  /** The last `width` decimal digits of `n`. */
  function Digits(n: nat, width: nat): (s: string)
    ensures |s| == width && AllDigits(s)
  {
    if width == 0 then "" else Digits(n / 10, width - 1) + [Digit(n)]
  }

  function Pow10(n: nat): nat {
    if n == 0 then 1 else 10 * Pow10(n - 1)
  }

  function DigitCount(n: nat): (w: nat)
    ensures w >= 1
  {
    if n < 10 then 1 else 1 + DigitCount(n / 10)
  }

  /** `n` zero-padded to five digits, and longer where five do not hold it. */
  function Padded(n: nat): (s: string)
    ensures |s| >= 5 && AllDigits(s)
  {
    if n < 100000 then Digits(n, 5)
    else
      DigitCountGrows(n);
      Digits(n, DigitCount(n))
  }

  lemma {:induction false} DigitCountHolds(n: nat)
    ensures n < Pow10(DigitCount(n))
  {
    if n >= 10 {
      DigitCountHolds(n / 10);
    }
  }

  lemma {:induction false} DigitCountGrows(n: nat)
    requires n >= 100000
    ensures DigitCount(n) >= 5
  {
    DigitCountHolds(n);
    assert Pow10(0) == 1 && Pow10(1) == 10 && Pow10(2) == 100 && Pow10(3) == 1000 && Pow10(4) == 10000;
  }

  function FileExt(system: System): string {
    if system.Windows? then ".ps1" else ""
  }

  function FileName(order: nat, name: string): string {
    Padded(order) + "_" + Script.EncodeMarkerName(name)
  }

  function NameFromFile(file: string): Option<string> {
    var parts := SplitOnce(WithoutSuffix(file, ".ps1"), '_');
    if parts.None? || parts.value.0 == "" || !AllDigits(parts.value.0) then None
    else Script.DecodeMarkerName(Script.ENCODED_NAME_PREFIX + parts.value.1)
  }

  function DecimalValue(digits: string): nat
    requires AllDigits(digits)
  {
    if digits == "" then 0
    else DecimalValue(digits[..|digits| - 1]) * 10 + (digits[|digits| - 1] as int - '0' as int)
  }

  /** A number of an unsigned 32-bit word, as the standard library parses it. */
  function ParseU32(s: string): Option<nat> {
    var digits := if s != "" && s[0] == '+' then s[1..] else s;
    if digits == "" || !AllDigits(digits) || DecimalValue(digits) >= U32 then None else Some(DecimalValue(digits))
  }

  function OrderFromFile(file: string): Option<nat> {
    var parts := SplitOnce(file, '_');
    if parts.None? then None else ParseU32(parts.value.0)
  }

  lemma {:induction false} DigitsValue(n: nat, width: nat)
    requires n < Pow10(width)
    ensures DecimalValue(Digits(n, width)) == n
  {
    if width > 0 {
      DigitsValue(n / 10, width - 1);
      assert Digits(n, width)[..width - 1] == Digits(n / 10, width - 1);
      assert Digit(n) as int - '0' as int == n % 10;
    }
  }

  /** With a plus sign or without, and only what a word of 32 bits holds. */
  lemma {:induction false} PaddedParses(n: nat)
    ensures ParseU32(Padded(n)) == if n < U32 then Some(n) else None
    ensures ParseU32("+" + Padded(n)) == ParseU32(Padded(n))
  {
    assert ("+" + Padded(n))[1..] == Padded(n);
    assert IsDigit(Padded(n)[0]);
    DigitCountHolds(n);
    assert Pow10(5) == 100000;
    DigitsValue(n, if n < 100000 then 5 else DigitCount(n));
  }

  lemma {:induction false} FileNameParts(order: nat, name: string)
    ensures SplitOnce(FileName(order, name), '_') == Some((Padded(order), Script.EncodeMarkerName(name)))
  {
    assert '_' !in Padded(order);
    SplitOnceAt(Padded(order), '_', Script.EncodeMarkerName(name));
    assert FileName(order, name) == Padded(order) + ['_'] + Script.EncodeMarkerName(name);
  }

  lemma {:induction false} EncodedChars(name: string)
    ensures
      var encoded := Script.EncodeMarkerName(name);
      '.' !in encoded && ' ' !in encoded && '\n' !in encoded
  {
    Base64.EncodedInAlphabet(Base64.UrlSafe, Utf8.Encode(name));
  }

  lemma {:induction false} FileNameChars(system: System, order: nat, name: string)
    ensures '.' !in FileName(order, name)
    ensures ' ' !in FileName(order, name) + FileExt(system) && '\n' !in FileName(order, name) + FileExt(system)
  {
    EncodedChars(name);
    var encoded := Script.EncodeMarkerName(name);
    assert '.' !in Padded(order) && ' ' !in Padded(order) && '\n' !in Padded(order);
    assert FileName(order, name) == Padded(order) + "_" + encoded;
  }

  /** A file name gives back the name and the order it was made from, with the
      extension a platform adds or without. */
  lemma {:induction false} FileNameReadsBack(system: System, order: nat, name: string)
    ensures NameFromFile(FileName(order, name) + FileExt(system)) == Some(name)
    ensures OrderFromFile(FileName(order, name)) == if order < U32 then Some(order) else None
  {
    var file := FileName(order, name);
    FileNameChars(system, order, name);
    FileNameParts(order, name);
    assert WithoutSuffix(file + FileExt(system), ".ps1") == file by {
      if system.Windows? {
        assert (file + ".ps1")[|file|..] == ".ps1";
        assert (file + ".ps1")[..|file|] == file;
      } else {
        assert file + "" == file;
        assert |file| >= 4 ==> file[|file| - 4..][0] in file;
      }
    }
    Script.MarkerNameIsExact(Script.ENCODED_NAME_PREFIX + Script.EncodeMarkerName(name), name);
    PaddedParses(order);
  }

  // ---------------------------------------------------------------------------
  // The order of file names
  // ---------------------------------------------------------------------------

  /** The order in which file names are sorted: by code point, which for UTF-8 is
      the same as by byte. */
  predicate Before(a: string, b: string)
    decreases |a|
  {
    b != "" && (a == "" || a[0] < b[0] || (a[0] == b[0] && Before(a[1..], b[1..])))
  }

  lemma {:induction false} BeforeIsTotal(a: string, b: string)
    ensures a == b || Before(a, b) || Before(b, a)
    ensures !(Before(a, b) && Before(b, a)) && !Before(a, a)
    decreases |a|
  {
    if a != "" {
      BeforeIsTotal(a[1..], a[1..]);
      if b != "" && a[0] == b[0] {
        BeforeIsTotal(a[1..], b[1..]);
        assert a == [a[0]] + a[1..] && b == [b[0]] + b[1..];
      }
    }
  }

  lemma {:induction false} BeforeIsTransitive(a: string, b: string, c: string)
    requires Before(a, b) && Before(b, c)
    ensures Before(a, c)
    decreases |a|
  {
    if a != "" && a[0] == b[0] == c[0] {
      BeforeIsTransitive(a[1..], b[1..], c[1..]);
    }
  }

  lemma {:induction false} BeforeByPrefix(p: string, q: string, s: string, t: string)
    requires |p| == |q| && Before(p, q)
    ensures Before(p + s, q + t)
    decreases |p|
  {
    if p[0] == q[0] {
      BeforeByPrefix(p[1..], q[1..], s, t);
      assert (p + s)[1..] == p[1..] + s && (q + t)[1..] == q[1..] + t;
    }
  }

  lemma {:induction false} BeforeBySuffix(p: string, s: string, t: string)
    requires Before(s, t)
    ensures Before(p + s, p + t)
  {
    if p == "" {
      assert p + s == s && p + t == t;
    } else {
      BeforeBySuffix(p[1..], s, t);
      assert (p + s)[1..] == p[1..] + s && (p + t)[1..] == p[1..] + t;
    }
  }

  /** Among numbers of one width, the order of their digits is their own. */
  lemma {:induction false} DigitsAreOrdered(m: nat, n: nat, width: nat)
    requires m < n < Pow10(width)
    ensures Before(Digits(m, width), Digits(n, width))
  {
    if m / 10 < n / 10 {
      DigitsAreOrdered(m / 10, n / 10, width - 1);
      BeforeByPrefix(Digits(m / 10, width - 1), Digits(n / 10, width - 1), [Digit(m)], [Digit(n)]);
    } else {
      assert m / 10 == n / 10 && m % 10 < n % 10;
      assert Before([Digit(m)], [Digit(n)]);
      BeforeBySuffix(Digits(m / 10, width - 1), [Digit(m)], [Digit(n)]);
    }
  }

  // ---------------------------------------------------------------------------
  // The directory
  // ---------------------------------------------------------------------------

  datatype File = File(name: string)

  /** A file, one that cannot be opened, something that is no file, or an entry of
      which not even that can be told. */
  datatype Node = Regular(content: seq<byte>) | Unreadable | NotAFile | Unknown

  type Directory = map<File, Node>

  type Found = seq<(string, CustomCmd)>

  /** The command a directory entry holds, if it is one. */
  function Ours(file: string, node: Node): Option<CustomCmd> {
    if !node.Regular? then None
    else
      var name, cmd := NameFromFile(file), Utf8.Decode(node.content);
      if name.None? || cmd.None? then None else Some(CustomCmd(name.value, cmd.value))
  }

  function Cmds(found: Found): seq<CustomCmd> {
    seq(|found|, i requires 0 <= i < |found| => found[i].1)
  }

  ghost predicate Sorted(found: Found) {
    forall i, j :: 0 <= i < j < |found| ==> Before(found[i].0, found[j].0)
  }

  predicate Holds(dir: Directory, file: string, cmd: CustomCmd) {
    File(file) in dir && Ours(file, dir[File(file)]) == Some(cmd)
  }

  ghost predicate AllHeld(dir: Directory, found: Found) {
    forall e <- found :: Holds(dir, e.0, e.1)
  }

  ghost predicate AllFound(dir: Directory, found: Found) {
    forall f, c :: Holds(dir, f, c) ==> (f, c) in found
  }

  /** `found` is what reading `dir` finds: every command in it, in the order of
      the file names, and nothing else. */
  ghost predicate Lists(dir: Directory, found: Found) {
    Sorted(found) && AllHeld(dir, found) && AllFound(dir, found)
  }

  ghost predicate Within(a: Found, b: Found) {
    forall e <- a :: e in b
  }

  lemma {:induction false} WithinTail(a: Found, b: Found)
    requires Sorted(a) && Within(a, b) && a != [] && b != [] && a[0] == b[0]
    ensures Within(a[1..], b[1..])
  {
    forall e | e in a[1..]
      ensures e in b[1..]
    {
      var i :| 0 <= i < |a[1..]| && a[1..][i] == e;
      assert a[i + 1] == e;
      BeforeIsTotal(a[0].0, e.0);
      assert e in b && e != b[0];
    }
  }

  lemma {:induction false} FirstIsFirst(a: Found, b: Found)
    requires Sorted(a) && Sorted(b) && Within(a, b) && Within(b, a) && a != []
    ensures b != [] && a[0] == b[0]
  {
    assert a[0] in b;
    var j :| 0 <= j < |b| && b[j] == a[0];
    assert b[0] in a;
    var i :| 0 <= i < |a| && a[i] == b[0];
    BeforeIsTotal(a[0].0, b[0].0);
  }

  lemma {:induction false} SortedIsUnique(a: Found, b: Found)
    requires Sorted(a) && Sorted(b) && Within(a, b) && Within(b, a)
    ensures a == b
  {
    assert b != [] ==> b[0] in a;
    if a != [] {
      FirstIsFirst(a, b);
      WithinTail(a, b);
      WithinTail(b, a);
      SortedIsUnique(a[1..], b[1..]);
      assert a == [a[0]] + a[1..] && b == [b[0]] + b[1..];
    }
  }

  /** A directory is read in one way only, whatever order its entries come in. */
  lemma {:induction false} ListingIsUnique(dir: Directory, a: Found, b: Found)
    requires Lists(dir, a) && Lists(dir, b)
    ensures a == b
  {
    forall e | e in a
      ensures e in b
    {
      assert Holds(dir, e.0, e.1);
    }
    forall e | e in b
      ensures e in a
    {
      assert Holds(dir, e.0, e.1);
    }
    SortedIsUnique(a, b);
  }

  // How much a directory holds

  /** The files of a directory that hold a command. */
  function HeldFiles(dir: Directory): set<File> {
    set f <- dir | Ours(f.name, dir[f]).Some?
  }

  function FilesOf(found: Found): set<File> {
    set e <- found :: File(e.0)
  }

  lemma {:induction false} FilesOfCount(found: Found)
    requires Sorted(found)
    ensures |FilesOf(found)| == |found|
  {
    if found != [] {
      var n := |found| - 1;
      var init, last := found[..n], found[n];
      FilesOfCount(init);
      forall e <- init
        ensures e.0 != last.0
      {
        var i :| 0 <= i < n && init[i] == e;
        BeforeIsTotal(found[i].0, last.0);
      }
      assert found == init + [last];
      assert FilesOf(found) == FilesOf(init) + {File(last.0)};
      assert File(last.0) !in FilesOf(init);
    }
  }

  /** A listing has one entry for each file that holds a command. */
  lemma {:induction false} ListsCount(dir: Directory, found: Found)
    requires Lists(dir, found)
    ensures |found| == |HeldFiles(dir)|
  {
    forall f
      ensures f in FilesOf(found) <==> f in HeldFiles(dir)
    {
      if f in HeldFiles(dir) {
        assert Holds(dir, f.name, Ours(f.name, dir[f]).value);
      }
    }
    assert FilesOf(found) == HeldFiles(dir);
    FilesOfCount(found);
  }

  // Reading

  function Insert(found: Found, e: (string, CustomCmd)): (r: Found)
    ensures |r| == |found| + 1
  {
    if found == [] || Before(e.0, found[0].0) then [e] + found else [found[0]] + Insert(found[1..], e)
  }

  function SortByFile(found: Found): (r: Found)
    ensures |r| == |found|
  {
    if found == [] then [] else Insert(SortByFile(found[1..]), found[0])
  }

  lemma {:induction false} SortedCons(e: (string, CustomCmd), found: Found)
    requires Sorted(found) && forall x <- found :: Before(e.0, x.0)
    ensures Sorted([e] + found)
  {
    forall i, j | 0 <= i < j < |[e] + found|
      ensures Before(([e] + found)[i].0, ([e] + found)[j].0)
    {
      assert found[j - 1] in found;
    }
  }

  lemma {:induction false} SortedHead(found: Found)
    requires Sorted(found) && found != []
    ensures Sorted(found[1..]) && forall x <- found[1..] :: Before(found[0].0, x.0)
  {
    var rest := found[1..];
    forall i, j | 0 <= i < j < |rest|
      ensures Before(rest[i].0, rest[j].0)
    {
      assert rest[i] == found[i + 1] && rest[j] == found[j + 1];
    }
  }

  lemma {:induction false} InsertSorts(found: Found, e: (string, CustomCmd))
    requires Sorted(found) && (forall x <- found :: x.0 != e.0)
    ensures Sorted(Insert(found, e))
    ensures forall x :: x in Insert(found, e) <==> x == e || x in found
  {
    if found == [] {
      SortedCons(e, found);
    } else if Before(e.0, found[0].0) {
      SortedHead(found);
      forall x <- found
        ensures Before(e.0, x.0)
      {
        if x != found[0] {
          assert x in found[1..];
          BeforeIsTransitive(e.0, found[0].0, x.0);
        }
      }
      SortedCons(e, found);
    } else {
      var first, rest := found[0], found[1..];
      assert forall x :: x in found <==> x == first || x in rest;
      SortedHead(found);
      InsertSorts(rest, e);
      BeforeIsTotal(e.0, first.0);
      SortedCons(first, Insert(rest, e));
    }
  }

  ghost predicate DistinctFiles(found: Found) {
    forall i, j :: 0 <= i < j < |found| ==> found[i].0 != found[j].0
  }

  lemma {:induction false} SortByFileSorts(found: Found)
    requires DistinctFiles(found)
    ensures Sorted(SortByFile(found))
    ensures forall x :: x in SortByFile(found) <==> x in found
  {
    if found != [] {
      SortByFileSorts(found[1..]);
      InsertSorts(SortByFile(found[1..]), found[0]);
    }
  }

  ghost predicate FoundOutside(dir: Directory, pending: set<File>, found: Found) {
    forall f, c :: Holds(dir, f, c) && File(f) !in pending ==> (f, c) in found
  }

  lemma {:induction false} FoundOneMore(dir: Directory, pending: set<File>, entry: File, found: Found)
    requires FoundOutside(dir, pending + {entry}, found) && entry in dir
    ensures
      var cmd := Ours(entry.name, dir[entry]);
      FoundOutside(dir, pending, if cmd.Some? then found + [(entry.name, cmd.value)] else found)
  {
  }

  lemma {:induction false} ListingExists(dir: Directory) returns (found: Found)
    ensures Lists(dir, found)
    decreases |dir|
  {
    found := [];
    if dir != map[] {
      var f :| f in dir;
      EntryRemoved(dir, f);
      var fewer := ListingExists(dir - {f});
      found := ListedWith(dir, f, fewer);
    }
  }

  lemma {:induction false} ListedWith(dir: Directory, f: File, fewer: Found) returns (found: Found)
    requires f in dir && Lists(dir - {f}, fewer)
    ensures Lists(dir, found)
  {
    var cmd := Ours(f.name, dir[f]);
    forall x <- fewer
      ensures x.0 != f.name && Holds(dir, x.0, x.1)
    {
      assert Holds(dir - {f}, x.0, x.1);
    }
    forall file, c | Holds(dir, file, c) && File(file) != f
      ensures (file, c) in fewer
    {
      assert Holds(dir - {f}, file, c);
    }
    if cmd.Some? {
      InsertSorts(fewer, (f.name, cmd.value));
      found := Insert(fewer, (f.name, cmd.value));
    } else {
      found := fewer;
    }
  }

  lemma {:induction false} EntryRemoved(dir: Directory, f: File)
    requires f in dir
    ensures |dir - {f}| == |dir| - 1
  {
    assert (dir - {f}).Keys == dir.Keys - {f};
    assert |dir.Keys| == |dir|;
    assert |(dir - {f}).Keys| == |dir - {f}|;
  }

  predicate Tells(dir: Directory, entry: File) {
    entry in dir ==> !dir[entry].Unknown?
  }

  /** Of the entries seen, all that hold a command have been collected. */
  ghost predicate Collected(dir: Directory, pending: set<File>, found: Found) {
    && DistinctFiles(found)
    && AllHeld(dir, found)
    && (forall e <- found :: File(e.0) !in pending)
    && FoundOutside(dir, pending, found)
  }

  lemma {:induction false} CollectedOneMore(dir: Directory, pending: set<File>, entry: File, found: Found)
    requires Collected(dir, pending, found) && entry in dir && entry in pending
    ensures
      var cmd := Ours(entry.name, dir[entry]);
      Collected(dir, pending - {entry}, if cmd.Some? then found + [(entry.name, cmd.value)] else found)
  {
    assert pending == pending - {entry} + {entry};
    FoundOneMore(dir, pending - {entry}, entry, found);
    var cmd := Ours(entry.name, dir[entry]);
    if cmd.Some? {
      HeldOneMore(dir, found, (entry.name, cmd.value));
    }
  }

  lemma {:induction false} HeldOneMore(dir: Directory, found: Found, e: (string, CustomCmd))
    requires DistinctFiles(found) && AllHeld(dir, found) && Holds(dir, e.0, e.1) && forall x <- found :: x.0 != e.0
    ensures DistinctFiles(found + [e]) && AllHeld(dir, found + [e])
  {
    StillDistinct(found, e);
    assert forall x :: x in found + [e] <==> x in found || x == e;
  }

  lemma {:induction false} StillDistinct(found: Found, e: (string, CustomCmd))
    requires DistinctFiles(found) && forall x <- found :: x.0 != e.0
    ensures DistinctFiles(found + [e])
  {
    forall i, j | 0 <= i < j < |found + [e]|
      ensures (found + [e])[i].0 != (found + [e])[j].0
    {
      assert found[i] in found;
    }
  }

  lemma {:induction false} CollectedLists(dir: Directory, found: Found)
    requires Collected(dir, {}, found)
    ensures Lists(dir, SortByFile(found))
  {
    SortByFileSorts(found);
  }

  /** Reading collects the files that hold a command, in whatever order the
      directory yields them, and sorts them. A directory that is not there reads
      as no commands. One that cannot be listed, or that has an entry whose type
      cannot be told, is an error; a file that cannot be opened is passed over. */
  method ReadDir(dir: Option<Directory>, listed: bool) returns (cmds: Option<seq<CustomCmd>>)
    ensures dir.None? ==> cmds == Some([])
    ensures dir.Some? ==> (cmds.Some? <==> listed && forall f <- dir.value :: !dir.value[f].Unknown?)
    ensures dir.Some? && cmds.Some? ==> exists found :: Lists(dir.value, found) && cmds.value == Cmds(found)
  {
    if dir.None? {
      return Some([]);
    }
    if !listed {
      return None;
    }
    var found: Found, pending := [], dir.value.Keys;
    while pending != {}
      invariant pending <= dir.value.Keys
      invariant Collected(dir.value, pending, found)
      invariant forall f :: f in dir.value && f !in pending ==> Tells(dir.value, f)
    {
      var entry :| entry in pending;
      if dir.value[entry].Unknown? {
        assert !Tells(dir.value, entry);
        return None;
      }
      var cmd := Ours(entry.name, dir.value[entry]);
      CollectedOneMore(dir.value, pending, entry, found);
      pending := pending - {entry};
      if cmd.Some? {
        found := found + [(entry.name, cmd.value)];
      }
    }
    assert forall f <- dir.value :: Tells(dir.value, f);
    CollectedLists(dir.value, found);
    return Some(Cmds(SortByFile(found)));
  }

  // Writing

  /** The order prefix of the `i`-th command, in the 32-bit word it is computed in. */
  function OrderOf(i: nat): nat {
    (i + 1) * ORDER_STEP % U32
  }

  /** The file the `i`-th command is written to. */
  function FileOf(system: System, i: nat, name: string): string {
    FileName(OrderOf(i), name) + FileExt(system)
  }

  function Saved(system: System, cmds: seq<CustomCmd>): (found: Found)
    ensures |found| == |cmds|
    ensures forall i :: 0 <= i < |cmds| ==> found[i] == (FileOf(system, i, cmds[i].name), cmds[i])
  {
    seq(|cmds|, i requires 0 <= i < |cmds| => (FileOf(system, i, cmds[i].name), cmds[i]))
  }

  /** One file written, over the one of its name if there is any. */
  function WithFile(dir: Directory, e: (string, CustomCmd)): Directory {
    dir[File(e.0) := Regular(Utf8.Encode(e.1.cmd))]
  }

  /** The directory that writing those files, in order, leaves. */
  function Written(found: Found): Directory {
    if found == [] then map[] else WithFile(Written(found[..|found| - 1]), found[|found| - 1])
  }

  ghost predicate Named(found: Found) {
    forall i :: 0 <= i < |found| ==> NameFromFile(found[i].0) == Some(found[i].1.name)
  }

  lemma {:induction false} HoldsAfterWrite(dir: Directory, last: (string, CustomCmd), file: string, cmd: CustomCmd)
    requires NameFromFile(last.0) == Some(last.1.name)
    ensures Holds(WithFile(dir, last), file, cmd)
       <==> if file == last.0 then cmd == last.1 else Holds(dir, file, cmd)
  {
    Utf8.DecodeEncode(last.1.cmd);
  }

  lemma {:induction false} LastFileIsNew(found: Found)
    requires DistinctFiles(found) && found != []
    ensures forall e <- found[..|found| - 1] :: e.0 != found[|found| - 1].0
  {
  }

  lemma {:induction false} InitIsNamed(found: Found)
    requires DistinctFiles(found) && Named(found) && found != []
    ensures DistinctFiles(found[..|found| - 1]) && Named(found[..|found| - 1])
  {
  }

  lemma {:induction false} InInitOrLast(found: Found, e: (string, CustomCmd))
    requires found != []
    ensures e in found <==> e in found[..|found| - 1] || e == found[|found| - 1]
  {
    assert found == found[..|found| - 1] + [found[|found| - 1]];
  }

  lemma {:induction false} WrittenHolds(found: Found, file: string, cmd: CustomCmd)
    requires DistinctFiles(found) && Named(found)
    ensures Holds(Written(found), file, cmd) <==> (file, cmd) in found
  {
    if found != [] {
      var init, last := found[..|found| - 1], found[|found| - 1];
      InitIsNamed(found);
      WrittenHolds(init, file, cmd);
      HoldsAfterWrite(Written(init), last, file, cmd);
      LastFileIsNew(found);
      InInitOrLast(found, (file, cmd));
    }
  }

  lemma {:induction false} WrittenLists(found: Found)
    requires Sorted(found) && Named(found)
    ensures Lists(Written(found), found)
  {
    forall i, j | 0 <= i < j < |found|
      ensures found[i].0 != found[j].0
    {
      BeforeIsTotal(found[i].0, found[j].0);
    }
    forall f, c
      ensures Holds(Written(found), f, c) <==> (f, c) in found
    {
      WrittenHolds(found, f, c);
    }
  }

  lemma {:induction false} SavedIsNamed(system: System, cmds: seq<CustomCmd>)
    ensures Named(Saved(system, cmds))
  {
    forall i | 0 <= i < |cmds|
      ensures NameFromFile(FileOf(system, i, cmds[i].name)) == Some(cmds[i].name)
    {
      FileNameReadsBack(system, OrderOf(i), cmds[i].name);
    }
  }

  lemma {:induction false} PaddedAreOrdered(m: nat, n: nat)
    requires m < n < 100000
    ensures Before(Padded(m), Padded(n)) && |Padded(m)| == |Padded(n)| == 5
  {
    assert Pow10(1) == 10 && Pow10(2) == 100 && Pow10(3) == 1000 && Pow10(4) == 10000 && Pow10(5) == 100000;
    DigitsAreOrdered(m, n, 5);
  }

  lemma {:induction false} FileStarts(system: System, i: nat, name: string)
    ensures Padded(OrderOf(i)) <= FileOf(system, i, name)
  {
  }

  lemma {:induction false} BeforeByStart(p: string, q: string, s: string, t: string)
    requires |p| == |q| && Before(p, q) && p <= s && q <= t
    ensures Before(s, t)
  {
    BeforeByPrefix(p, q, s[|p|..], t[|q|..]);
    assert s == p + s[|p|..] && t == q + t[|q|..];
  }

  /** Up to the 999th command, the order of the files is the order of the list. */
  lemma {:induction false} FilesAreOrdered(system: System, i: nat, j: nat, m: string, n: string)
    requires i < j < 999
    ensures Before(FileOf(system, i, m), FileOf(system, j, n))
  {
    PaddedAreOrdered(OrderOf(i), OrderOf(j));
    FileStarts(system, i, m);
    FileStarts(system, j, n);
    BeforeByStart(Padded(OrderOf(i)), Padded(OrderOf(j)), FileOf(system, i, m), FileOf(system, j, n));
  }

  lemma {:induction false} LeadingDigit(n: nat, width: nat)
    requires width > 1
    ensures Digits(n, width)[0] == Digits(n / 10, width - 1)[0]
  {
  }

  lemma {:induction false} LeadingDigits()
    ensures Padded(100000)[0] == '1' && Padded(99900)[0] == '9'
  {
    assert DigitCount(1) == 1;
    assert DigitCount(10) == 2;
    assert DigitCount(100) == 3;
    assert DigitCount(1000) == 4;
    assert DigitCount(10000) == 5;
    assert DigitCount(100000) == 6;
    LeadingDigit(100000, 6);
    LeadingDigit(10000, 5);
    LeadingDigit(1000, 4);
    LeadingDigit(100, 3);
    LeadingDigit(10, 2);
    assert Digits(1, 1)[0] == '1';
    LeadingDigit(99900, 5);
    LeadingDigit(9990, 4);
    LeadingDigit(999, 3);
    LeadingDigit(99, 2);
    assert Digits(9, 1)[0] == '9';
  }

  /** The thousandth file has a sixth digit and sorts before its predecessor. */
  lemma {:induction false} ThousandthIsMisplaced(system: System, m: string, n: string)
    ensures Before(FileOf(system, 999, n), FileOf(system, 998, m))
  {
    LeadingDigits();
    assert OrderOf(999) == 100000 && OrderOf(998) == 99900;
    assert FileOf(system, 999, n)[0] == Padded(100000)[0];
    assert FileOf(system, 998, m)[0] == Padded(99900)[0];
  }

  ghost predicate DistinctNames(cmds: seq<CustomCmd>) {
    forall i, j :: 0 <= i < j < |cmds| ==> cmds[i].name != cmds[j].name
  }

  lemma {:induction false} SavedIsSorted(system: System, cmds: seq<CustomCmd>)
    requires |cmds| <= 999
    ensures Sorted(Saved(system, cmds))
  {
    forall i, j | 0 <= i < j < |cmds|
      ensures Before(FileOf(system, i, cmds[i].name), FileOf(system, j, cmds[j].name))
    {
      FilesAreOrdered(system, i, j, cmds[i].name, cmds[j].name);
    }
  }

  lemma {:induction false} SavedFilesDiffer(system: System, cmds: seq<CustomCmd>)
    requires DistinctNames(cmds)
    ensures DistinctFiles(Saved(system, cmds))
  {
    SavedIsNamed(system, cmds);
    var saved := Saved(system, cmds);
    forall i, j | 0 <= i < j < |saved|
      ensures saved[i].0 != saved[j].0
    {
      assert NameFromFile(saved[i].0) == Some(cmds[i].name) && NameFromFile(saved[j].0) == Some(cmds[j].name);
    }
  }

  /** Where a command is found in a written directory: in the file it was saved to. */
  lemma {:induction false} FoundWhereSaved(system: System, cmds: seq<CustomCmd>, file: string, i: nat)
    requires DistinctNames(cmds) && i < |cmds|
    requires Holds(Written(Saved(system, cmds)), file, cmds[i])
    ensures file == FileOf(system, i, cmds[i].name)
  {
    SavedFilesDiffer(system, cmds);
    SavedIsNamed(system, cmds);
    WrittenHolds(Saved(system, cmds), file, cmds[i]);
    SavedOnce(system, cmds, (file, cmds[i]), i);
  }

  lemma {:induction false} SavedOnce(system: System, cmds: seq<CustomCmd>, e: (string, CustomCmd), i: nat)
    requires DistinctNames(cmds) && i < |cmds| && e in Saved(system, cmds) && e.1 == cmds[i]
    ensures e.0 == FileOf(system, i, cmds[i].name)
  {
    var saved := Saved(system, cmds);
    var k :| 0 <= k < |cmds| && saved[k] == e;
    assert cmds[k] == cmds[i];
  }

  /** The round trip: a list of commands with distinct names, written and read
      back, is the same list exactly when it has at most 999 commands. From the
      thousandth on, five digits do not hold the order any more. */
  lemma {:induction false} WrittenListReadsBack(system: System, cmds: seq<CustomCmd>, found: Found)
    requires DistinctNames(cmds) && Lists(Written(Saved(system, cmds)), found)
    ensures Cmds(found) == cmds <==> |cmds| <= 999
  {
    var saved := Saved(system, cmds);
    if |cmds| <= 999 {
      SavedIsSorted(system, cmds);
      SavedIsNamed(system, cmds);
      WrittenLists(saved);
      ListingIsUnique(Written(saved), found, saved);
    } else if Cmds(found) == cmds {
      assert |found| == |cmds|;
      assert found[998].1 == Cmds(found)[998] == cmds[998] && found[999].1 == Cmds(found)[999] == cmds[999];
      assert found[998] in found && found[999] in found;
      FoundWhereSaved(system, cmds, found[998].0, 998);
      FoundWhereSaved(system, cmds, found[999].0, 999);
      ThousandthIsMisplaced(system, cmds[998].name, cmds[999].name);
      BeforeIsTotal(found[998].0, found[999].0);
    }
  }

  /** What a written directory holds beside what was there before. */
  lemma {:induction false} HeldOver(left: Directory, written: Directory)
    ensures HeldFiles(left + written) == HeldFiles(written) + (HeldFiles(left) - written.Keys)
  {
  }

  lemma {:induction false} OverwrittenLists(left: Directory, written: Directory, found: Found)
    requires HeldFiles(left) <= written.Keys && Lists(left + written, found)
    ensures Lists(written, found)
  {
    forall f, c
      ensures Holds(left + written, f, c) <==> Holds(written, f, c)
    {
      assert Holds(left, f, c) ==> File(f) in HeldFiles(left);
    }
  }

  lemma {:induction false} LeftOverCounts(left: Directory, written: Directory)
    requires !(HeldFiles(left) <= written.Keys)
    ensures |HeldFiles(left + written)| > |HeldFiles(written)|
  {
    var all, fewer := HeldFiles(left + written), HeldFiles(written);
    HeldOver(left, written);
    var f :| f in HeldFiles(left) && f !in written.Keys;
    assert f in all && f !in fewer;
    Subset(fewer, all);
  }

  lemma {:induction false} SavedCount(system: System, cmds: seq<CustomCmd>)
    requires DistinctNames(cmds)
    ensures |HeldFiles(Written(Saved(system, cmds)))| == |cmds|
  {
    var saved := Saved(system, cmds);
    SavedFilesDiffer(system, cmds);
    SavedIsNamed(system, cmds);
    SortByFileSorts(saved);
    forall f, c
      ensures Holds(Written(saved), f, c) <==> (f, c) in SortByFile(saved)
    {
      WrittenHolds(saved, f, c);
    }
    ListsCount(Written(saved), SortByFile(saved));
  }

  /** A directory that was not quite empty when the files were written: they read
      back exactly if they overwrite every command that was left in it. */
  lemma {:induction false} WrittenOverReadsBack(system: System, cmds: seq<CustomCmd>, left: Directory, found: Found)
    requires DistinctNames(cmds) && Lists(left + Written(Saved(system, cmds)), found)
    ensures Cmds(found) == cmds <==> |cmds| <= 999 && HeldFiles(left) <= Written(Saved(system, cmds)).Keys
  {
    var written := Written(Saved(system, cmds));
    if HeldFiles(left) <= written.Keys {
      OverwrittenLists(left, written, found);
      WrittenListReadsBack(system, cmds, found);
    } else {
      ListsCount(left + written, found);
      SavedCount(system, cmds);
      LeftOverCounts(left, written);
    }
  }

  lemma {:induction false} HoldsNothingWritten(system: System, cmds: seq<CustomCmd>, left: Directory)
    ensures HeldFiles(left + Written(Saved(system, cmds))) == {} <==> cmds == [] && HeldFiles(left) == {}
  {
    HeldOver(left, Written(Saved(system, cmds)));
    if cmds != [] {
      SavedIsNamed(system, cmds);
      LastIsHeld(Saved(system, cmds));
    }
  }

  lemma {:induction false} LastIsHeld(found: Found)
    requires Named(found) && found != []
    ensures HeldFiles(Written(found)) != {}
  {
    var init, last := found[..|found| - 1], found[|found| - 1];
    HoldsAfterWrite(Written(init), last, last.0, last.1);
    assert Holds(Written(found), last.0, last.1);
    assert File(last.0) in HeldFiles(Written(found));
  }

  // ---------------------------------------------------------------------------
  // Validation
  // ---------------------------------------------------------------------------

  datatype Fault =
    | NoName
    | LongName(name: string)
    | UntrimmedName(name: string)
    | RepeatedName(name: string)
    | NoCommand(name: string)

  predicate NameFits(name: string) {
    |Utf8.Encode(name)| <= MAX_NAME_LEN
  }

  predicate ValidCmd(c: CustomCmd) {
    c.name != "" && Trim(c.name) == c.name && NameFits(c.name) && Trim(c.cmd) != ""
  }

  predicate AllValid(cmds: seq<CustomCmd>, n: nat)
    requires n <= |cmds|
  {
    n == 0 || (AllValid(cmds, n - 1) && ValidCmd(cmds[n - 1]))
  }

  lemma {:induction false} EachIsValid(cmds: seq<CustomCmd>, n: nat, i: nat)
    requires i < n <= |cmds| && !ValidCmd(cmds[i])
    ensures !AllValid(cmds, n)
  {
    if i < n - 1 {
      EachIsValid(cmds, n - 1, i);
    }
  }

  ghost predicate NamesDiffer(cmds: seq<CustomCmd>, n: nat)
    requires n <= |cmds|
  {
    forall i, j :: 0 <= i < j < n ==> cmds[i].name != cmds[j].name
  }

  /** The first `n` commands are valid and their names differ. */
  ghost predicate ValidUpTo(cmds: seq<CustomCmd>, n: nat)
    requires n <= |cmds|
  {
    AllValid(cmds, n) && NamesDiffer(cmds, n)
  }

  ghost predicate ValidList(cmds: seq<CustomCmd>) {
    ValidUpTo(cmds, |cmds|)
  }

  predicate UsedBefore(cmds: seq<CustomCmd>, n: nat, name: string)
    requires n <= |cmds|
  {
    exists i :: 0 <= i < n && cmds[i].name == name
  }

  predicate Repeats(cmds: seq<CustomCmd>, i: nat)
    requires i < |cmds|
  {
    UsedBefore(cmds, i, cmds[i].name)
  }

  /** What is wrong with the `i`-th command, the faults before it in the list of
      checks having been excluded. */
  predicate IsFaultOf(cmds: seq<CustomCmd>, i: nat, fault: Fault)
    requires i < |cmds|
  {
    var c := cmds[i];
    var name := Trim(c.name);
    match fault
    case NoName => name == ""
    case LongName(n) => n == name != "" && !NameFits(n)
    case UntrimmedName(n) => n == name != "" && NameFits(n) && n != c.name
    case RepeatedName(n) => n == name != "" && NameFits(n) && n == c.name && Repeats(cmds, i)
    case NoCommand(n) => n == name != "" && NameFits(n) && n == c.name && !Repeats(cmds, i) && Trim(c.cmd) == ""
  }

  /** A list is refused exactly when it is not valid, for the first fault in it. */
  method Validate(cmds: seq<CustomCmd>) returns (fault: Option<Fault>)
    ensures fault.None? <==> ValidList(cmds)
    ensures fault.Some? ==> exists i :: 0 <= i < |cmds| && ValidUpTo(cmds, i) && IsFaultOf(cmds, i, fault.value)
  {
    var seen: set<File> := {};
    for i := 0 to |cmds|
      invariant ValidUpTo(cmds, i)
      invariant forall n :: File(n) in seen <==> UsedBefore(cmds, i, n)
    {
      var name := Trim(cmds[i].name);
      if name == "" {
        FaultIsFound(cmds, i, NoName);
        return Some(NoName);
      }
      if |Utf8.Encode(name)| > MAX_NAME_LEN {
        FaultIsFound(cmds, i, LongName(name));
        return Some(LongName(name));
      }
      if name != cmds[i].name {
        FaultIsFound(cmds, i, UntrimmedName(name));
        return Some(UntrimmedName(name));
      }
      if File(name) in seen {
        FaultIsFound(cmds, i, RepeatedName(name));
        return Some(RepeatedName(name));
      }
      assert NamesDiffer(cmds, i + 1);
      UsedOneMore(cmds, i, seen);
      seen := seen + {File(name)};
      if Trim(cmds[i].cmd) == "" {
        FaultIsFound(cmds, i, NoCommand(name));
        return Some(NoCommand(name));
      }
    }
    return None;
  }

  lemma {:induction false} FaultIsFound(cmds: seq<CustomCmd>, i: nat, fault: Fault)
    requires i < |cmds| && ValidUpTo(cmds, i) && IsFaultOf(cmds, i, fault)
    ensures exists j :: 0 <= j < |cmds| && ValidUpTo(cmds, j) && IsFaultOf(cmds, j, fault)
    ensures !ValidList(cmds)
  {
    if Repeats(cmds, i) {
      RepeatIsInvalid(cmds, i);
    } else {
      EachIsValid(cmds, |cmds|, i);
    }
  }

  /** What the error says of the command it is about is so. */
  lemma {:induction false} FaultExplains(cmds: seq<CustomCmd>, i: nat, fault: Fault)
    requires i < |cmds| && IsFaultOf(cmds, i, fault)
    ensures
      var c := cmds[i];
      match fault
      case NoName => AllSpace(c.name)
      case LongName(n) => n == Trim(c.name) && |Utf8.Encode(n)| >= 65
      case UntrimmedName(n) =>
        n == Trim(c.name) && c.name != "" && (IsSpace(c.name[0]) || IsSpace(c.name[|c.name| - 1]))
      case RepeatedName(n) => n == c.name && exists j :: 0 <= j < i && cmds[j].name == n
      case NoCommand(n) => n == c.name && AllSpace(c.cmd)
  {
    var c := cmds[i];
    BlankIsTrimmed(c.name);
    BlankIsTrimmed(c.cmd);
    if fault.UntrimmedName? {
      var before, after := TrimCuts(c.name);
      assert before == "" && after == "" ==> before + Trim(c.name) + after == Trim(c.name);
    }
  }

  /** The first command that is not valid has one fault, and one only. */
  lemma {:induction false} FirstFaultIsOne(cmds: seq<CustomCmd>, i: nat) returns (fault: Fault)
    requires i < |cmds| && ValidUpTo(cmds, i) && !ValidUpTo(cmds, i + 1)
    ensures IsFaultOf(cmds, i, fault) && forall f :: IsFaultOf(cmds, i, f) ==> f == fault
  {
    var c := cmds[i];
    var name := Trim(c.name);
    fault := if name == "" then NoName
             else if !NameFits(name) then LongName(name)
             else if name != c.name then UntrimmedName(name)
             else if Repeats(cmds, i) then RepeatedName(name)
             else NoCommand(name);
    if fault.NoCommand? {
      assert NamesDiffer(cmds, i + 1);
    }
  }

  lemma {:induction false} RepeatIsInvalid(cmds: seq<CustomCmd>, i: nat)
    requires i < |cmds| && Repeats(cmds, i)
    ensures !NamesDiffer(cmds, |cmds|)
  {
    var j :| 0 <= j < i && cmds[j].name == cmds[i].name;
  }

  lemma {:induction false} UsedOneMore(cmds: seq<CustomCmd>, i: nat, seen: set<File>)
    requires i < |cmds| && forall n :: File(n) in seen <==> UsedBefore(cmds, i, n)
    ensures forall n :: File(n) in seen + {File(cmds[i].name)} <==> UsedBefore(cmds, i + 1, n)
  {
    forall n
      ensures UsedBefore(cmds, i + 1, n) <==> UsedBefore(cmds, i, n) || n == cmds[i].name
    {
      if UsedBefore(cmds, i, n) {
        var j :| 0 <= j < i && cmds[j].name == n;
        assert cmds[j].name == n;
      }
    }
  }

  // ---------------------------------------------------------------------------
  // What a directory reads as while it is replaced
  // ---------------------------------------------------------------------------

  /** Nothing but entries of `was`, as they were. */
  ghost predicate PartOf(was: Option<Directory>, now: Option<Directory>) {
    now.Some? ==> was.Some? && forall f <- now.value :: f in was.value && was.value[f] == now.value[f]
  }

  predicate Emptied(dir: Option<Directory>) {
    dir.Some? ==> dir.value == map[]
  }

  function HeldIn(dir: Option<Directory>): set<File> {
    if dir.None? then {} else HeldFiles(dir.value)
  }

  ghost predicate ReadsAs(dir: Option<Directory>, cmds: seq<CustomCmd>) {
    if dir.None? then cmds == [] else exists found :: Lists(dir.value, found) && Cmds(found) == cmds
  }

  /** A collection cycle that reads `now` finds the old list or the new one. */
  ghost predicate OldOrNew(was: Option<Directory>, next: Option<Directory>, now: Option<Directory>) {
    exists cmds :: ReadsAs(now, cmds) && (ReadsAs(was, cmds) || ReadsAs(next, cmds))
  }

  lemma {:induction false} ReadingCounts(dir: Option<Directory>, cmds: seq<CustomCmd>)
    requires ReadsAs(dir, cmds)
    ensures |cmds| == |HeldIn(dir)|
  {
    if dir.Some? {
      var found :| Lists(dir.value, found) && Cmds(found) == cmds;
      ListsCount(dir.value, found);
    }
  }

  lemma {:induction false} ReadingExists(dir: Option<Directory>) returns (cmds: seq<CustomCmd>)
    ensures ReadsAs(dir, cmds)
  {
    cmds := [];
    if dir.Some? {
      var found := ListingExists(dir.value);
      cmds := Cmds(found);
    }
  }

  lemma {:induction false} HoldsNothing(dir: Option<Directory>)
    requires HeldIn(dir) == {}
    ensures ReadsAs(dir, [])
  {
    var cmds := ReadingExists(dir);
    ReadingCounts(dir, cmds);
  }

  lemma {:induction false} Subset<T>(a: set<T>, b: set<T>)
    requires a <= b
    ensures |a| <= |b| && (|a| == |b| ==> a == b)
  {
    assert b == a + (b - a);
    assert |b| == |a| + |b - a|;
  }

  lemma {:induction false} PartHolds(was: Option<Directory>, now: Option<Directory>)
    requires PartOf(was, now)
    ensures HeldIn(now) <= HeldIn(was) && |HeldIn(now)| <= |HeldIn(was)|
  {
    Subset(HeldIn(now), HeldIn(was));
  }

  /** Entries that hold no command can go without the reading changing. */
  lemma {:induction false} PartReadsAlike(was: Option<Directory>, now: Option<Directory>)
    requires PartOf(was, now) && |HeldIn(now)| == |HeldIn(was)|
    ensures exists cmds :: ReadsAs(now, cmds) && ReadsAs(was, cmds)
  {
    PartHolds(was, now);
    Subset(HeldIn(now), HeldIn(was));
    if HeldIn(was) == {} {
      HoldsNothing(was);
      HoldsNothing(now);
    } else {
      var found := ListingExists(was.value);
      SamePartLists(was.value, now.value, found);
    }
  }

  lemma {:induction false} SamePartLists(was: Directory, now: Directory, found: Found)
    requires PartOf(Some(was), Some(now)) && HeldFiles(now) == HeldFiles(was) && Lists(was, found)
    ensures Lists(now, found) && ReadsAs(Some(was), Cmds(found)) && ReadsAs(Some(now), Cmds(found))
  {
    forall f, c
      ensures Holds(now, f, c) <==> Holds(was, f, c)
    {
      assert File(f) in HeldFiles(was) <==> File(f) in HeldFiles(now);
    }
    assert Lists(now, found);
  }

  /** What is met while the old directory goes entry by entry and the new one comes:
      parts of the old one, each number of its commands being left at some time. */
  ghost predicate Replacing(was: Option<Directory>, next: Option<Directory>, met: seq<Option<Directory>>) {
    && (forall m <- met :: PartOf(was, m) || m == next)
    && (forall n: nat :: n < |HeldIn(was)| ==> MetWith(met, n))
  }

  ghost predicate MetWith(met: seq<Option<Directory>>, n: nat) {
    exists m <- met :: |HeldIn(m)| == n
  }

  lemma {:induction false} MetOneMore(met: seq<Option<Directory>>, m: Option<Directory>, n: nat)
    requires |HeldIn(m)| == n || MetWith(met, n)
    ensures MetWith(met + [m], n)
  {
    if |HeldIn(m)| == n {
      assert (met + [m])[|met|] == m;
    } else {
      var k :| k in met && |HeldIn(k)| == n;
      assert k in met + [m];
    }
  }

  lemma {:induction false} NeitherOldNorNew(was: Option<Directory>, next: Option<Directory>, now: Option<Directory>)
    requires |HeldIn(now)| != |HeldIn(was)| && |HeldIn(now)| != |HeldIn(next)|
    ensures !OldOrNew(was, next, now)
  {
    if OldOrNew(was, next, now) {
      var cmds :| ReadsAs(now, cmds) && (ReadsAs(was, cmds) || ReadsAs(next, cmds));
      ReadingCounts(now, cmds);
      if ReadsAs(was, cmds) {
        ReadingCounts(was, cmds);
      } else {
        ReadingCounts(next, cmds);
      }
    }
  }

  lemma {:induction false} IsOldOrNew(was: Option<Directory>, next: Option<Directory>, now: Option<Directory>)
    requires PartOf(was, now) || now == next
    requires HeldIn(was) == {} || (HeldIn(next) == {} && |HeldIn(was)| <= 1)
    ensures OldOrNew(was, next, now)
  {
    if now == next {
      var cmds := ReadingExists(next);
    } else {
      PartHolds(was, now);
      if |HeldIn(now)| == |HeldIn(was)| {
        PartReadsAlike(was, now);
      } else {
        HoldsNothing(now);
        HoldsNothing(next);
      }
    }
  }

  /** The promise that a cycle finds the old set or the new one, never half of each:
      it holds, in whatever order the entries go, if and only if there was no command
      to begin with, or one at most and there is none in the end. */
  lemma {:induction false} AlwaysOldOrNew(was: Option<Directory>, next: Option<Directory>, met: seq<Option<Directory>>)
    requires Replacing(was, next, met)
    ensures (forall m <- met :: OldOrNew(was, next, m))
       <==> HeldIn(was) == {} || (HeldIn(next) == {} && |HeldIn(was)| <= 1)
  {
    if HeldIn(was) == {} || (HeldIn(next) == {} && |HeldIn(was)| <= 1) {
      forall m <- met
        ensures OldOrNew(was, next, m)
      {
        IsOldOrNew(was, next, m);
      }
    } else {
      var n := if HeldIn(next) == {} then |HeldIn(was)| - 1 else 0;
      assert MetWith(met, n);
      var m :| m in met && |HeldIn(m)| == n;
      NeitherOldNorNew(was, next, m);
    }
  }

  /** With a command before and a command after, there is a moment with none. */
  lemma {:induction false} EmptyMomentIsNeither(was: Option<Directory>, next: Option<Directory>, now: Option<Directory>)
    requires HeldIn(was) != {} && HeldIn(next) != {} && Emptied(now)
    ensures ReadsAs(now, []) && !OldOrNew(was, next, now)
  {
    HoldsNothing(now);
    NeitherOldNorNew(was, next, now);
  }

  // ---------------------------------------------------------------------------
  // Replacing the directory
  // ---------------------------------------------------------------------------

  /** Which of the system calls of one replacement succeed: which entries of a
      left-over temporary directory resist removal, the creation of the new one, so
      many writes into it, so many removals from the old directory, the creation of
      the parent, the rename. */
  datatype Faults = Faults(resisting: set<File>, create: bool, writes: nat, removals: nat, parent: bool, rename: bool)

  /** What a left-over temporary directory still holds when its removal failed. */
  function LeftOver(tmp: Option<Directory>, resisting: set<File>): Directory {
    if tmp.None? then map[] else map f <- tmp.value | f in resisting :: tmp.value[f]
  }

  /** What resists removal is left as it was, and nothing else; none of it is in the way
      if there was no such directory. */
  lemma {:induction false} WhatResistsIsLeft(tmp: Option<Directory>, resisting: set<File>, f: File)
    ensures f in LeftOver(tmp, resisting) <==> tmp.Some? && f in tmp.value && f in resisting
    ensures f in LeftOver(tmp, resisting) ==> LeftOver(tmp, resisting)[f] == tmp.value[f]
  {
  }

  /** Removal goes entry by entry. */
  ghost predicate Falls(was: Option<Directory>, now: Option<Directory>, met: seq<Option<Directory>>) {
    && PartOf(was, now)
    && (forall m <- met :: PartOf(was, m))
    && (forall n: nat :: |HeldIn(now)| <= n < |HeldIn(was)| ==> MetWith(met, n))
  }

  lemma {:induction false} FallsOneMore(was: Option<Directory>, now: Option<Directory>, met: seq<Option<Directory>>, next: Option<Directory>)
    requires Falls(was, now, met) && PartOf(now, next) && |HeldIn(next)| >= |HeldIn(now)| - 1
    ensures Falls(was, next, met + [next])
  {
    forall n: nat | |HeldIn(next)| <= n < |HeldIn(was)|
      ensures MetWith(met + [next], n)
    {
      assert n > |HeldIn(next)| ==> MetWith(met, n);
      MetOneMore(met, next, n);
    }
  }

  lemma {:induction false} FallsFurther(was: Option<Directory>, now: Option<Directory>, met: seq<Option<Directory>>, from: nat, next: Option<Directory>)
    requires from <= |met| && Falls(was, now, met[from..])
    requires PartOf(now, next) && |HeldIn(next)| >= |HeldIn(now)| - 1
    ensures Falls(was, next, (met + [next])[from..])
  {
    FallsOneMore(was, now, met[from..], next);
    assert (met + [next])[from..] == met[from..] + [next];
  }

  lemma {:induction false} OneFewer(dir: Directory, f: File)
    requires f in dir
    ensures PartOf(Some(dir), Some(dir - {f})) && |HeldFiles(dir - {f})| >= |HeldFiles(dir)| - 1
    ensures dir - {f} == map[] ==> PartOf(Some(dir - {f}), None)
  {
    Subset(HeldFiles(dir), HeldFiles(dir - {f}) + {f});
  }

  /** A directory that fell to nothing, and the one that took its place. */
  lemma {:induction false} FallenIsReplaced(was: Option<Directory>, now: Option<Directory>, met: seq<Option<Directory>>, next: Option<Directory>)
    requires Falls(was, now, met) && Emptied(now)
    ensures Replacing(was, next, met + [next])
  {
    assert HeldIn(now) == {};
    forall n: nat | n < |HeldIn(was)|
      ensures MetWith(met + [next], n)
    {
      assert MetWith(met, n);
      MetOneMore(met, next, n);
    }
  }

  class Store {
    var dir: Option<Directory>
    var tmp: Option<Directory>
    /** Every state of the directory a collection cycle could have met. */
    ghost var met: seq<Option<Directory>>

    constructor (dir: Option<Directory>, tmp: Option<Directory>)
      ensures this.dir == dir && this.tmp == tmp && met == [dir]
    {
      this.dir, this.tmp, met := dir, tmp, [dir];
    }

    method RemoveEntry()
      requires dir.Some? && dir.value != map[]
      modifies `dir, `met
      ensures dir.Some? && |dir.value| == |old(dir).value| - 1
      ensures PartOf(old(dir), dir) && |HeldIn(dir)| >= |HeldIn(old(dir))| - 1
      ensures dir != old(dir) && met == old(met) + [dir]
    {
      var f :| f in dir.value;
      EntryRemoved(dir.value, f);
      OneFewer(dir.value, f);
      dir := Some(dir.value - {f});
      met := met + [dir];
    }

    /** Removal goes entry by entry, and may stop short. */
    method RemoveDir(removals: nat)
      modifies `dir, `met
      ensures old(met) <= met && Falls(old(dir), dir, met[|old(met)|..])
      ensures dir != old(dir) ==> |met| > |old(met)| && met[|met| - 1] == dir
      ensures old(dir).Some? && removals > |old(dir).value| ==> dir == None
    {
      if dir.None? {
        return;
      }
      var left := removals;
      while dir.value != map[] && left > 0
        invariant dir.Some? && old(met) <= met && Falls(old(dir), dir, met[|old(met)|..])
        invariant dir != old(dir) ==> |met| > |old(met)| && dir == met[|met| - 1]
        invariant removals > |old(dir).value| ==> left > |dir.value|
      {
        ghost var before, seen := dir, met;
        RemoveEntry();
        FallsFurther(old(dir), before, seen, |old(met)|, dir);
        left := left - 1;
      }
      if left > 0 {
        FallsFurther(old(dir), dir, met, |old(met)|, None);
        dir := None;
        met := met + [dir];
      }
    }

    /** Writes the files aside, beside what is left there; fails after `writes` of
        them if there are more. */
    method WriteAside(system: System, cmds: seq<CustomCmd>, writes: nat) returns (ok: bool)
      requires tmp.Some?
      modifies `tmp
      ensures ok <==> |cmds| <= writes
      ensures ok ==> tmp == Some(old(tmp).value + Written(Saved(system, cmds)))
    {
      ghost var saved := Saved(system, cmds);
      assert saved[..0] == [] && tmp.value + map[] == tmp.value;
      for i := 0 to |cmds|
        invariant i <= writes
        invariant tmp == Some(old(tmp).value + Written(saved[..i]))
      {
        if i == writes {
          return false;
        }
        var file := FileName(OrderOf(i), cmds[i].name) + FileExt(system);
        WrittenOneMore(old(tmp).value, saved, i);
        tmp := Some(tmp.value[File(file) := Regular(Utf8.Encode(cmds[i].cmd))]);
      }
      assert saved[..|cmds|] == saved;
      return true;
    }

    /** Removes the old directory and moves the new one into its place; a directory
        that is not empty is not replaced. */
    method MoveIntoPlace(faults: Faults) returns (ok: bool)
      requires tmp.Some?
      modifies this
      ensures old(met) <= met
      ensures !ok ==> Falls(old(dir), dir, met[|old(met)|..])
      ensures ok ==> dir == old(tmp) && tmp == None && Replacing(old(dir), dir, met[|old(met)|..])
      ensures ok ==> Emptied(old(dir)) || exists i :: |old(met)| <= i < |met| && Emptied(met[i])
      ensures faults.parent && faults.rename && (old(dir).Some? ==> faults.removals > |old(dir).value|) ==> ok
    {
      RemoveDir(faults.removals);
      if !faults.parent || !faults.rename || !Emptied(dir) {
        return false;
      }
      ghost var last, fallen := |met| - 1, met[|old(met)|..];
      assert !Emptied(old(dir)) ==> |old(met)| <= last && Emptied(met[last]);
      FallenIsReplaced(old(dir), dir, fallen, tmp);
      dir, tmp := tmp, None;
      met := met + [dir];
      assert met[|old(met)|..] == fallen + [dir];
      assert !Emptied(old(dir)) ==> Emptied(met[last]);
      return true;
    }

    /** The directory is replaced by writing the new one aside and moving it into
        place. Whatever fails, and wherever a cycle looks in, it meets what is left
        of the old set or the whole new set, and never some of each. The old set
        goes before the new one comes: in between there is nothing. So a cycle is
        sure to find the old list or the new one if and only if there was nothing to
        find before, or one command at most and nothing after. */
    method WriteDir(system: System, cmds: seq<CustomCmd>, faults: Faults) returns (ok: bool)
      modifies this
      ensures ok ==> dir == Some(LeftOver(old(tmp), faults.resisting) + Written(Saved(system, cmds))) && tmp == None
      ensures old(met) <= met
      ensures !ok ==> Falls(old(dir), dir, met[|old(met)|..])
      ensures ok ==> Replacing(old(dir), dir, met[|old(met)|..])
      ensures ok ==> Emptied(old(dir)) || exists i :: |old(met)| <= i < |met| && Emptied(met[i])
      ensures ok ==>
        ((forall m <- met[|old(met)|..] :: OldOrNew(old(dir), dir, m))
         <==> || HeldIn(old(dir)) == {}
              || (cmds == [] && HeldFiles(LeftOver(old(tmp), faults.resisting)) == {} && |HeldIn(old(dir))| <= 1))
      ensures
        && faults.create && faults.writes >= |cmds| && faults.parent && faults.rename
        && (old(dir).Some? ==> faults.removals > |old(dir).value|)
        ==> ok
    {
      var left := LeftOver(tmp, faults.resisting);
      tmp := if left == map[] then None else Some(left);
      if !faults.create {
        return false;
      }
      tmp := Some(left);
      ok := WriteAside(system, cmds, faults.writes);
      if ok {
        ok := MoveIntoPlace(faults);
      }
      if ok {
        AlwaysOldOrNew(old(dir), dir, met[|old(met)|..]);
        HoldsNothingWritten(system, cmds, LeftOver(old(tmp), faults.resisting));
      }
    }

    /** A list that is refused changes nothing; one that is written reads back, up to
        999 commands, if no command file was left behind in the temporary directory
        that it does not overwrite. */
    method Replace(system: System, cmds: seq<CustomCmd>, faults: Faults) returns (fault: Option<Fault>, ok: bool)
      modifies this
      ensures fault.None? <==> ValidList(cmds)
      ensures fault.Some? ==> !ok && unchanged(this)
      ensures ok ==> dir.Some? && tmp.None?
      ensures ok ==> forall found :: Lists(dir.value, found) ==>
        (Cmds(found) == cmds
         <==> |cmds| <= 999 && HeldFiles(LeftOver(old(tmp), faults.resisting)) <= Written(Saved(system, cmds)).Keys)
    {
      fault := Validate(cmds);
      if fault.Some? {
        return fault, false;
      }
      ok := WriteDir(system, cmds, faults);
      if ok {
        ghost var left := LeftOver(old(tmp), faults.resisting);
        forall found | Lists(dir.value, found)
          ensures Cmds(found) == cmds <==> |cmds| <= 999 && HeldFiles(left) <= Written(Saved(system, cmds)).Keys
        {
          WrittenOverReadsBack(system, cmds, left, found);
        }
      }
    }
  }

  lemma {:induction false} WrittenOneMore(left: Directory, found: Found, i: nat)
    requires i < |found|
    ensures left + Written(found[..i + 1]) == WithFile(left + Written(found[..i]), found[i])
  {
    assert found[..i + 1][..i] == found[..i];
  }
}
