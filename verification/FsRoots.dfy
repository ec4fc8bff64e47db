/** Which paths the file API may touch: those that lie, once every symbolic link is
    followed, inside one of the configured roots. */
module FsRoots {
  import opened Wrappers
  import opened Text

  datatype Name = Name(text: string)

  type Path = seq<Name>

  /** One component of a spelled path. A doubled or trailing slash is a `Here`: it
      names the directory it follows, and asks that it be one. */
  datatype Step = Here | Up | Down(name: Name)

  datatype Node = Absent | Directory | File | Link(absolute: bool, target: seq<Step>)

  /** One state of the file system. */
  type Fs = Path -> Node

  datatype Denied = NotAbsolute | Traversal | OutsideRoots

  datatype Result<T> = Ok(value: T) | Err(denied: Denied)

  ghost predicate WellFormed(fs: Fs) {
    fs([]).Directory? && forall p: Path, n: Name :: !fs(p + [n]).Absent? ==> fs(p).Directory?
  }

  // ---------------------------------------------------------------------------
  // Spelled paths
  // ---------------------------------------------------------------------------

  function StepOf(part: string): Step {
    if part == "" || part == "." then Here
    else if part == ".." then Up
    else Down(Name(part))
  }

  function StepsOf(parts: seq<string>): (steps: seq<Step>)
    ensures |steps| == |parts|
  {
    if parts == [] then [] else [StepOf(parts[0])] + StepsOf(parts[1..])
  }

  predicate IsAbsolute(raw: string) {
    raw != "" && raw[0] == '/'
  }

  function Spelled(raw: string): seq<Step> {
    StepsOf(Split(raw, '/'))
  }

  function CheckAbsolute(requested: string): Result<seq<Step>> {
    if !IsAbsolute(requested) then Err(NotAbsolute)
    else if Up in Spelled(requested) then Err(Traversal)
    else Ok(Spelled(requested))
  }

  // ---------------------------------------------------------------------------
  // Canonicalisation
  // ---------------------------------------------------------------------------

  function Parent(p: Path): Path {
    if p == [] then [] else p[..|p| - 1]
  }

  /** Where a walk along `steps` from `at` ends, following at most `links` symbolic
      links, and how many it could still follow. */
  function Walk(fs: Fs, at: Path, steps: seq<Step>, links: nat): Option<(Path, nat)>
    decreases links, |steps|
  {
    if steps == [] then Some((at, links))
    else if !fs(at).Directory? then None
    else
      match steps[0]
      case Here => Walk(fs, at, steps[1..], links)
      case Up => Walk(fs, Parent(at), steps[1..], links)
      case Down(name) =>
        match fs(at + [name])
        case Absent => None
        case Directory => Walk(fs, at + [name], steps[1..], links)
        case File => Walk(fs, at + [name], steps[1..], links)
        case Link(absolute, target) =>
          if links == 0 then None
          else Walk(fs, if absolute then [] else at, target + steps[1..], links - 1)
  }

  function Canonicalize(fs: Fs, from: Path, steps: seq<Step>, links: nat): Option<Path> {
    var end := Walk(fs, from, steps, links);
    if end.None? then None else Some(end.value.0)
  }

  /** Walking in two legs is walking once. */
  lemma {:induction false} WalkInLegs(fs: Fs, at: Path, a: seq<Step>, b: seq<Step>, links: nat)
    ensures
      var mid := Walk(fs, at, a, links);
      Walk(fs, at, a + b, links) == if mid.None? then None else Walk(fs, mid.value.0, b, mid.value.1)
    decreases links, |a|
  {
    if a == [] {
      assert a + b == b;
    } else if fs(at).Directory? {
      assert (a + b)[1..] == a[1..] + b;
      match a[0]
      case Here => WalkInLegs(fs, at, a[1..], b, links);
      case Up => WalkInLegs(fs, Parent(at), a[1..], b, links);
      case Down(name) =>
        match fs(at + [name])
        case Absent =>
        case Directory => WalkInLegs(fs, at + [name], a[1..], b, links);
        case File => WalkInLegs(fs, at + [name], a[1..], b, links);
        case Link(absolute, target) =>
          if links > 0 {
            assert target + (a + b)[1..] == (target + a[1..]) + b;
            WalkInLegs(fs, if absolute then [] else at, target + a[1..], b, links - 1);
          }
    }
  }

  ghost predicate Extends(fs: Fs, more: Fs) {
    forall p :: !fs(p).Absent? ==> more(p) == fs(p)
  }

  /** What is created later does not change where an existing path leads. */
  lemma {:induction false} WalkSurvives(fs: Fs, more: Fs, at: Path, steps: seq<Step>, links: nat)
    requires Extends(fs, more) && Walk(fs, at, steps, links).Some?
    ensures Walk(more, at, steps, links) == Walk(fs, at, steps, links)
    decreases links, |steps|
  {
    if steps != [] {
      match steps[0]
      case Here => WalkSurvives(fs, more, at, steps[1..], links);
      case Up => WalkSurvives(fs, more, Parent(at), steps[1..], links);
      case Down(name) =>
        match fs(at + [name])
        case Directory => WalkSurvives(fs, more, at + [name], steps[1..], links);
        case File => WalkSurvives(fs, more, at + [name], steps[1..], links);
        case Link(absolute, target) =>
          WalkSurvives(fs, more, if absolute then [] else at, target + steps[1..], links - 1);
    }
  }

  /** Every directory on the way to `p` is one, and not a link to one. */
  ghost predicate LinkFree(fs: Fs, p: Path) {
    forall i :: 0 <= i < |p| ==> fs(p[..i]).Directory?
  }

  ghost predicate IsCanonical(fs: Fs, p: Path) {
    LinkFree(fs, p) && (fs(p).Directory? || fs(p).File?)
  }

  lemma {:induction false} LinkFreeParent(fs: Fs, p: Path)
    requires LinkFree(fs, p) && fs([]).Directory?
    ensures LinkFree(fs, Parent(p)) && fs(Parent(p)).Directory?
  {
    forall i | 0 <= i < |Parent(p)|
      ensures fs(Parent(p)[..i]).Directory?
    {
      assert Parent(p)[..i] == p[..i];
    }
  }

  lemma {:induction false} LinkFreeChild(fs: Fs, p: Path, n: Name)
    requires LinkFree(fs, p) && fs(p).Directory?
    ensures LinkFree(fs, p + [n])
  {
    forall i | 0 <= i < |p + [n]|
      ensures fs((p + [n])[..i]).Directory?
    {
      if i == |p| {
        assert (p + [n])[..i] == p;
      } else {
        assert (p + [n])[..i] == p[..i];
      }
    }
  }

  /** A canonical path exists and passes through no link. */
  lemma {:induction false} WalkIsCanonical(fs: Fs, at: Path, steps: seq<Step>, links: nat)
    requires fs([]).Directory? && IsCanonical(fs, at) && Walk(fs, at, steps, links).Some?
    ensures IsCanonical(fs, Walk(fs, at, steps, links).value.0)
    decreases links, |steps|
  {
    if steps != [] {
      match steps[0]
      case Here => WalkIsCanonical(fs, at, steps[1..], links);
      case Up =>
        LinkFreeParent(fs, at);
        WalkIsCanonical(fs, Parent(at), steps[1..], links);
      case Down(name) =>
        LinkFreeChild(fs, at, name);
        match fs(at + [name])
        case Directory => WalkIsCanonical(fs, at + [name], steps[1..], links);
        case File => WalkIsCanonical(fs, at + [name], steps[1..], links);
        case Link(absolute, target) =>
          WalkIsCanonical(fs, if absolute then [] else at, target + steps[1..], links - 1);
    }
  }

  function Downs(p: Path): (steps: seq<Step>)
    ensures |steps| == |p|
  {
    if p == [] then [] else [Down(p[0])] + Downs(p[1..])
  }

  /** The names along `steps`, which `Here` adds nothing to. */
  function NamesIn(steps: seq<Step>): Path {
    if steps == [] then [] else (if steps[0].Down? then [steps[0].name] else []) + NamesIn(steps[1..])
  }

  lemma {:induction false} NamesInConcat(a: seq<Step>, b: seq<Step>)
    ensures NamesIn(a + b) == NamesIn(a) + NamesIn(b)
    decreases |a|
  {
    if a == [] {
      assert a + b == b;
    } else {
      var first := if a[0].Down? then [a[0].name] else [];
      assert (a + b)[1..] == a[1..] + b && (a + b)[0] == a[0];
      NamesInConcat(a[1..], b);
      assert NamesIn(a) == first + NamesIn(a[1..]);
      assert first + (NamesIn(a[1..]) + NamesIn(b)) == (first + NamesIn(a[1..])) + NamesIn(b);
    }
  }

  ghost predicate AllDirectories(fs: Fs, at: Path, names: Path) {
    forall i :: 0 <= i <= |names| ==> fs(at + names[..i]).Directory?
  }

  lemma {:induction false} DirectoriesBelow(fs: Fs, at: Path, names: Path)
    requires AllDirectories(fs, at, names) && names != []
    ensures fs(at + [names[0]]).Directory? && AllDirectories(fs, at + [names[0]], names[1..])
  {
    var next, rest := at + [names[0]], names[1..];
    forall i | 0 <= i <= |rest|
      ensures fs(next + rest[..i]).Directory?
    {
      assert next + rest[..i] == at + names[..i + 1];
    }
    assert next + rest[..0] == next;
  }

  /** A walk that meets no link goes exactly where its names say. */
  lemma {:induction false} PlainWalk(fs: Fs, at: Path, steps: seq<Step>, links: nat)
    requires Up !in steps && AllDirectories(fs, at, NamesIn(steps))
    ensures Walk(fs, at, steps, links) == Some((at + NamesIn(steps), links))
    decreases |steps|
  {
    var names := NamesIn(steps);
    assert at + names[..0] == at;
    if steps == [] {
      assert at + names == at;
    } else {
      assert steps[0] != Up;
      if steps[0].Here? {
        assert NamesIn(steps[1..]) == names;
        PlainWalk(fs, at, steps[1..], links);
      } else {
        assert names == [steps[0].name] + NamesIn(steps[1..]);
        DirectoriesBelow(fs, at, names);
        assert names[1..] == NamesIn(steps[1..]);
        PlainWalk(fs, at + [names[0]], steps[1..], links);
        assert at + names == at + [names[0]] + names[1..];
      }
    }
  }

  // ---------------------------------------------------------------------------
  // The resolvers
  // ---------------------------------------------------------------------------

  predicate IsWithin(p: Path, root: Path) {
    root <= p
  }

  predicate WithinAny(roots: seq<Path>, p: Path) {
    exists root <- roots :: IsWithin(p, root)
  }

  function CheckWithin(roots: seq<Path>, p: Path): Result<Path> {
    if WithinAny(roots, p) then Ok(p) else Err(OutsideRoots)
  }

  predicate IsUnrestricted(roots: seq<Path>) {
    exists root <- roots :: root == []
  }

  /** A path lies under a root if it is that root and names below it. */
  ghost predicate Under(roots: seq<Path>, p: Path) {
    exists i, below: Path :: 0 <= i < |roots| && roots[i] + below == p
  }

  lemma {:induction false} WithinIsUnder(roots: seq<Path>, p: Path)
    ensures WithinAny(roots, p) <==> Under(roots, p)
  {
    if WithinAny(roots, p) {
      var root :| root in roots && IsWithin(p, root);
      var i :| 0 <= i < |roots| && roots[i] == root;
      assert roots[i] + p[|root|..] == p;
    }
    if Under(roots, p) {
      var i, below: Path :| 0 <= i < |roots| && roots[i] + below == p;
      assert IsWithin(p, roots[i]);
    }
  }

  /** The configuration that gets a warning is exactly the one that refuses no path. */
  lemma {:induction false} UnrestrictedMeansEverything(roots: seq<Path>)
    ensures IsUnrestricted(roots) <==> forall p :: Under(roots, p)
  {
    assert (forall p :: Under(roots, p)) ==> Under(roots, []);
    if Under(roots, []) {
      var i, below: Path :| 0 <= i < |roots| && roots[i] + below == [];
      assert |roots[i]| + |below| == 0 && roots[i] in roots;
    }
    if IsUnrestricted(roots) {
      var i :| 0 <= i < |roots| && roots[i] == [];
      forall p
        ensures Under(roots, p)
      {
        assert roots[i] + p == p;
      }
    }
  }

  /** The roots that exist, canonical, in the order they were configured. */
  function UsableRoots(fs: Fs, cwd: Path, configured: seq<string>, links: nat): seq<Path> {
    if configured == [] then []
    else
      var rest := UsableRoots(fs, cwd, configured[1..], links);
      var root := CanonicalRoot(fs, cwd, configured[0], links);
      if root.Some? then [root.value] + rest else rest
  }

  function CanonicalRoot(fs: Fs, cwd: Path, raw: string, links: nat): Option<Path> {
    if raw == "" then None else Canonicalize(fs, if IsAbsolute(raw) then [] else cwd, Spelled(raw), links)
  }

  method Resolve(fs: Fs, cwd: Path, configured: seq<string>, links: nat) returns (roots: seq<Path>)
    ensures roots == UsableRoots(fs, cwd, configured, links)
  {
    roots := [];
    for i := 0 to |configured|
      invariant roots + UsableRoots(fs, cwd, configured[i..], links) == UsableRoots(fs, cwd, configured, links)
    {
      assert configured[i..][1..] == configured[i + 1..];
      var root := CanonicalRoot(fs, cwd, configured[i], links);
      match root
      case Some(path) =>
        assert roots + ([path] + UsableRoots(fs, cwd, configured[i + 1..], links))
            == (roots + [path]) + UsableRoots(fs, cwd, configured[i + 1..], links);
        roots := roots + [path];
      case None =>
    }
  }

  /** Every root is canonical, so that comparing components with it is sound. */
  lemma {:induction false} RootsAreCanonical(fs: Fs, cwd: Path, configured: seq<string>, links: nat)
    requires fs([]).Directory? && IsCanonical(fs, cwd)
    ensures forall root <- UsableRoots(fs, cwd, configured, links) :: IsCanonical(fs, root)
  {
    if configured != [] {
      RootsAreCanonical(fs, cwd, configured[1..], links);
      if CanonicalRoot(fs, cwd, configured[0], links).Some? {
        WalkIsCanonical(fs, if IsAbsolute(configured[0]) then [] else cwd, Spelled(configured[0]), links);
      }
    }
  }

  function ResolveExisting(fs: Fs, roots: seq<Path>, requested: string, links: nat): Result<Path> {
    var path := CheckAbsolute(requested);
    if path.Err? then Err(path.denied)
    else
      var canonical := Canonicalize(fs, [], path.value, links);
      if canonical.None? then Err(OutsideRoots) else CheckWithin(roots, canonical.value)
  }

  /** A path without its trailing `Here` steps. */
  function Trimmed(steps: seq<Step>): (r: seq<Step>)
    ensures |r| <= |steps| && r == steps[..|r|]
    ensures r != [] ==> !r[|r| - 1].Here?
    ensures forall i :: |r| <= i < |steps| ==> steps[i].Here?
  {
    if steps != [] && steps[|steps| - 1].Here? then Trimmed(steps[..|steps| - 1]) else steps
  }

  /** The last name of a path, if it ends in one. */
  function FileName(steps: seq<Step>): (name: Option<Name>)
    ensures name.Some? ==> Trimmed(steps) != [] && Trimmed(steps)[|Trimmed(steps)| - 1] == Down(name.value)
  {
    var t := Trimmed(steps);
    if t != [] && t[|t| - 1].Down? then Some(t[|t| - 1].name) else None
  }

  function ParentOf(steps: seq<Step>): (r: seq<Step>)
    ensures |r| <= |steps|
    ensures FileName(steps).Some? ==> |r| < |steps|
  {
    var t := Trimmed(steps);
    if t == [] then [] else Trimmed(t[..|t| - 1])
  }

  function Extended(anchor: Option<(Path, Path)>, below: Path): Option<(Path, Path)> {
    if anchor.None? then None else Some((anchor.value.0, anchor.value.1 + below))
  }

  lemma {:induction false} ExtendedTwice(anchor: Option<(Path, Path)>, a: Path, b: Path)
    ensures Extended(Extended(anchor, a), b) == Extended(anchor, a + b)
  {
    if anchor.Some? {
      assert (anchor.value.1 + a) + b == anchor.value.1 + (a + b);
    }
  }

  /** The deepest ancestor that resolves, and the names below it. */
  function Anchor(fs: Fs, steps: seq<Step>, links: nat): Option<(Path, Path)>
    decreases |steps|
  {
    var canonical := Canonicalize(fs, [], steps, links);
    if canonical.Some? then Some((canonical.value, []))
    else if FileName(steps).None? then None
    else Extended(Anchor(fs, ParentOf(steps), links), [FileName(steps).value])
  }

  function NewPath(fs: Fs, roots: seq<Path>, requested: string, links: nat): Result<Path> {
    var path := CheckAbsolute(requested);
    if path.Err? then Err(path.denied)
    else
      var anchor := Anchor(fs, path.value, links);
      if anchor.None? then Err(OutsideRoots)
      else if CheckWithin(roots, anchor.value.0).Err? then Err(OutsideRoots)
      else Ok(anchor.value.0 + anchor.value.1)
  }

  function Reversed(p: Path): (r: Path)
    ensures |r| == |p|
  {
    if p == [] then [] else [p[|p| - 1]] + Reversed(p[..|p| - 1])
  }

  lemma {:induction false} ReversedSnoc(p: Path, n: Name)
    ensures Reversed(p + [n]) == [n] + Reversed(p)
  {
    assert (p + [n])[..|p|] == p;
  }

  lemma {:induction false} ReversedTake(p: Path, i: nat)
    requires i < |p|
    ensures Reversed(p[..i + 1]) == [p[i]] + Reversed(p[..i])
  {
    assert p[..i + 1] == p[..i] + [p[i]];
    ReversedSnoc(p[..i], p[i]);
  }

  lemma {:induction false} ExtendedByNothing(anchor: Option<(Path, Path)>)
    ensures Extended(anchor, []) == anchor
  {
    assert anchor.Some? ==> anchor.value.1 + [] == anchor.value.1;
  }

  /** Built from the anchor outwards, last name pushed first. */
  method Rebuild(anchor: Path, tail: Path) returns (resolved: Path)
    ensures resolved == anchor + Reversed(tail)
  {
    resolved := anchor;
    var i := |tail|;
    assert tail[..|tail|] == tail;
    while i > 0
      invariant 0 <= i <= |tail|
      invariant resolved + Reversed(tail[..i]) == anchor + Reversed(tail)
    {
      i := i - 1;
      ReversedTake(tail, i);
      Regroup(resolved, [tail[i]], Reversed(tail[..i]));
      resolved := resolved + [tail[i]];
    }
    assert resolved + [] == resolved;
  }

  /** Walks up to the deepest ancestor that resolves and rebuilds the path from
      there. No name of the tail can be `.` or `..`: those are not names. */
  method ResolveNew(fs: Fs, roots: seq<Path>, requested: string, links: nat) returns (r: Result<Path>)
    ensures r == NewPath(fs, roots, requested, links)
  {
    var path := CheckAbsolute(requested);
    if path.Err? {
      return Err(path.denied);
    }
    var tail: Path, cursor := [], path.value;
    ExtendedByNothing(Anchor(fs, cursor, links));
    var canonical := Canonicalize(fs, [], cursor, links);
    while canonical.None?
      invariant canonical == Canonicalize(fs, [], cursor, links)
      invariant Anchor(fs, path.value, links) == Extended(Anchor(fs, cursor, links), Reversed(tail))
      decreases |cursor|, canonical.None?
    {
      var name := FileName(cursor);
      if name.None? {
        return Err(OutsideRoots);
      }
      ReversedSnoc(tail, name.value);
      ExtendedTwice(Anchor(fs, ParentOf(cursor), links), [name.value], Reversed(tail));
      tail := tail + [name.value];
      cursor := ParentOf(cursor);
      canonical := Canonicalize(fs, [], cursor, links);
    }
    var anchor := CheckWithin(roots, canonical.value);
    if anchor.Err? {
      return anchor;
    }
    var resolved := Rebuild(anchor.value, tail);
    assert [] + Reversed(tail) == Reversed(tail);
    return Ok(resolved);
  }

  /** Refused before anything is looked up: what is not absolute, and what has `..`
      between its slashes. */
  lemma {:induction false} RefusedUpFront(requested: string)
    ensures CheckAbsolute(requested) == Err(NotAbsolute) <==> requested == "" || requested[0] != '/'
    ensures CheckAbsolute(requested) == Err(Traversal)
       <==> requested != "" && requested[0] == '/' && ".." in Split(requested, '/')
    ensures CheckAbsolute(requested).Ok? ==> CheckAbsolute(requested).value == Spelled(requested)
  {
    UpIsSpelled(Split(requested, '/'));
  }

  lemma {:induction false} UpIsSpelled(parts: seq<string>)
    ensures Up in StepsOf(parts) <==> ".." in parts
  {
    if parts != [] {
      UpIsSpelled(parts[1..]);
      assert parts == [parts[0]] + parts[1..];
    }
  }

  /** What exists is accepted exactly if it really lies under a root, component by
      component, and then the answer is where it lies. */
  lemma {:induction false} ExistingIsDecided(fs: Fs, roots: seq<Path>, requested: string, links: nat, p: Path)
    requires CheckAbsolute(requested).Ok? && Canonicalize(fs, [], Spelled(requested), links) == Some(p)
    ensures
      var r := if Under(roots, p) then Ok(p) else Err(OutsideRoots);
      ResolveExisting(fs, roots, requested, links) == r && NewPath(fs, roots, requested, links) == r
  {
    RefusedUpFront(requested);
    WithinIsUnder(roots, p);
    assert p + [] == p;
  }

  /** What does not exist is refused by the one, and by the other exactly if its
      deepest ancestor that exists lies outside the roots, or there is none. */
  lemma {:induction false} MissingIsDecided(fs: Fs, roots: seq<Path>, requested: string, links: nat)
    requires CheckAbsolute(requested).Ok? && Canonicalize(fs, [], Spelled(requested), links).None?
    ensures ResolveExisting(fs, roots, requested, links) == Err(OutsideRoots)
    ensures
      var anchor := Anchor(fs, Spelled(requested), links);
      NewPath(fs, roots, requested, links)
      == if anchor.Some? && Under(roots, anchor.value.0) then Ok(anchor.value.0 + anchor.value.1) else Err(OutsideRoots)
  {
    RefusedUpFront(requested);
    var anchor := Anchor(fs, Spelled(requested), links);
    if anchor.Some? {
      WithinIsUnder(roots, anchor.value.0);
    }
  }

  /** Whatever either resolver accepts lies under a root, component by component. */
  lemma {:induction false} AcceptedLiesUnderARoot(fs: Fs, roots: seq<Path>, requested: string, links: nat)
    ensures ResolveExisting(fs, roots, requested, links).Ok? ==>
      Under(roots, ResolveExisting(fs, roots, requested, links).value)
    ensures NewPath(fs, roots, requested, links).Ok? ==> Under(roots, NewPath(fs, roots, requested, links).value)
  {
    if ResolveExisting(fs, roots, requested, links).Ok? {
      WithinIsUnder(roots, ResolveExisting(fs, roots, requested, links).value);
    }
    if NewPath(fs, roots, requested, links).Ok? {
      var anchor := Anchor(fs, CheckAbsolute(requested).value, links).value;
      WithinIsUnder(roots, anchor.0);
      UnderStill(roots, anchor.0, anchor.1);
    }
  }

  lemma {:induction false} UnderStill(roots: seq<Path>, p: Path, below: Path)
    requires Under(roots, p)
    ensures Under(roots, p + below)
  {
    var i, between: Path :| 0 <= i < |roots| && roots[i] + between == p;
    assert roots[i] + (between + below) == p + below;
  }

  /** For a path that exists the two resolvers are one. */
  lemma {:induction false} ResolversAgreeOnExisting(fs: Fs, roots: seq<Path>, requested: string, links: nat)
    requires CheckAbsolute(requested).Ok? ==> Canonicalize(fs, [], CheckAbsolute(requested).value, links).Some?
    ensures NewPath(fs, roots, requested, links) == ResolveExisting(fs, roots, requested, links)
  {
    if CheckAbsolute(requested).Ok? {
      var p := Canonicalize(fs, [], CheckAbsolute(requested).value, links).value;
      assert p + [] == p;
    }
  }

  // ---------------------------------------------------------------------------
  // Canonical prediction
  // ---------------------------------------------------------------------------

  /** The file system once a directory has been created at `p`, if nothing was there. */
  function WithDirectory(fs: Fs, p: Path): Fs {
    (q: Path) => if q == p && fs(q).Absent? then Directory else fs(q)
  }

  /** The file system once the directories of `names` below `base` that are missing
      have been created, each in a directory. */
  function WithDirectories(fs: Fs, base: Path, names: Path): Fs
    decreases |names|
  {
    if names == [] || !fs(base).Directory? then fs
    else WithDirectories(WithDirectory(fs, base + [names[0]]), base + [names[0]], names[1..])
  }

  lemma {:induction false} ExtendsTransitive(a: Fs, b: Fs, c: Fs)
    requires Extends(a, b) && Extends(b, c)
    ensures Extends(a, c)
  {
    forall p | !a(p).Absent?
      ensures c(p) == a(p)
    {
      assert b(p) == a(p);
    }
  }

  lemma {:induction false} WithDirectoriesExtends(fs: Fs, base: Path, names: Path)
    ensures Extends(fs, WithDirectories(fs, base, names))
    decreases |names|
  {
    if names != [] && fs(base).Directory? {
      var next := base + [names[0]];
      var one := WithDirectory(fs, next);
      assert Extends(fs, one);
      WithDirectoriesExtends(one, next, names[1..]);
      ExtendsTransitive(fs, one, WithDirectories(one, next, names[1..]));
    }
  }

  lemma {:induction false} WellFormedAfter(fs: Fs, base: Path, n: Name)
    requires WellFormed(fs) && fs(base).Directory?
    ensures WellFormed(WithDirectory(fs, base + [n]))
  {
    var more := WithDirectory(fs, base + [n]);
    forall p: Path, m: Name | !more(p + [m]).Absent?
      ensures more(p).Directory?
    {
      if p + [m] == base + [n] {
        assert p == (p + [m])[..|p|] == base;
      } else {
        assert !fs(p + [m]).Absent?;
      }
    }
  }

  /** Nothing is where nothing can be: below what is not a directory. */
  lemma {:induction false} NothingBelow(fs: Fs, p: Path, n: Name)
    requires WellFormed(fs) && !fs(p).Directory?
    ensures fs(p + [n]).Absent?
  {
  }

  /** Nothing stands in the way of creating `names` below `base`. */
  ghost predicate CanCreate(fs: Fs, base: Path, names: Path) {
    WellFormed(fs) && fs(base).Directory? && (names != [] ==> fs(base + [names[0]]).Absent?)
  }

  lemma {:induction false} CreateFirst(fs: Fs, base: Path, names: Path)
    requires CanCreate(fs, base, names) && names != []
    ensures CanCreate(WithDirectory(fs, base + [names[0]]), base + [names[0]], names[1..])
  {
    var next := base + [names[0]];
    WellFormedAfter(fs, base, names[0]);
    if |names| > 1 {
      NothingBelow(fs, next, names[1]);
      assert |next + [names[1]]| != |next|;
    }
  }

  /** Below a missing name, every directory is created. */
  lemma {:induction false} MissingAreCreated(fs: Fs, base: Path, names: Path, i: nat)
    requires CanCreate(fs, base, names) && i <= |names|
    ensures WithDirectories(fs, base, names)(base + names[..i]).Directory?
    decreases |names|
  {
    if i == 0 {
      assert base + names[..0] == base;
      WithDirectoriesExtends(fs, base, names);
    } else {
      var next := base + [names[0]];
      CreateFirst(fs, base, names);
      MissingAreCreated(WithDirectory(fs, next), next, names[1..], i - 1);
      assert base + names[..i] == next + names[1..][..i - 1];
    }
  }

  predicate AllHere(steps: seq<Step>) {
    forall i :: 0 <= i < |steps| ==> steps[i].Here?
  }

  lemma {:induction false} AllHereHasNoNames(steps: seq<Step>)
    requires AllHere(steps)
    ensures NamesIn(steps) == [] && Up !in steps
  {
    if steps != [] {
      AllHereHasNoNames(steps[1..]);
    }
  }

  /** How a path splits at its anchor: the part that resolves, the name that does
      not, and what follows. */
  datatype Cut = Cut(head: seq<Step>, gap: seq<Step>, name: Name, slashes: seq<Step>, more: seq<Step>) {
    /** The head and the one name further, with its slashes. */
    function Further(): seq<Step> {
      head + gap + [Down(name)] + slashes
    }

    function All(): seq<Step> {
      Further() + more
    }
  }

  /** The head resolves to `anchor`; one name further, nothing does. */
  ghost predicate Breaks(fs: Fs, links: nat, head: seq<Step>, further: seq<Step>, anchor: Path) {
    Canonicalize(fs, [], head, links) == Some(anchor) && Canonicalize(fs, [], further, links).None?
  }

  ghost predicate Spells(steps: seq<Step>, cut: Cut, below: Path) {
    && cut.All() == steps && AllHere(cut.gap) && AllHere(cut.slashes)
    && below == [cut.name] + NamesIn(cut.more)
  }

  ghost predicate CutsAt(fs: Fs, steps: seq<Step>, links: nat, cut: Cut, anchor: Path, below: Path) {
    Spells(steps, cut, below) && Breaks(fs, links, cut.head, cut.Further(), anchor)
  }

  lemma {:induction false} ParentSplits(steps: seq<Step>) returns (gap: seq<Step>, slashes: seq<Step>)
    requires FileName(steps).Some?
    ensures steps == ParentOf(steps) + gap + [Down(FileName(steps).value)] + slashes
    ensures AllHere(gap) && AllHere(slashes)
  {
    var t := Trimmed(steps);
    var init := t[..|t| - 1];
    slashes := steps[|t|..];
    gap := init[|ParentOf(steps)|..];
    assert t == init + [t[|t| - 1]] && init == ParentOf(steps) + gap && steps == t + slashes;
  }

  lemma {:induction false} OneName(gap: seq<Step>, name: Name, slashes: seq<Step>)
    requires AllHere(gap) && AllHere(slashes)
    ensures NamesIn(gap + [Down(name)] + slashes) == [name]
  {
    AllHereHasNoNames(gap);
    AllHereHasNoNames(slashes);
    NamesInConcat(gap + [Down(name)], slashes);
    NamesInConcat(gap, [Down(name)]);
    assert NamesIn([Down(name)]) == [name] + NamesIn([]);
  }

  lemma {:induction false} NamesLonger(n: Name, more: seq<Step>, last: seq<Step>)
    ensures [n] + NamesIn(more + last) == ([n] + NamesIn(more)) + NamesIn(last)
  {
    NamesInConcat(more, last);
  }

  lemma {:induction false} SpellsLonger(steps: seq<Step>, cut: Cut, below: Path, last: seq<Step>)
    requires Spells(steps, cut, below)
    ensures Spells(steps + last, cut.(more := cut.more + last), below + NamesIn(last))
    ensures cut.(more := cut.more + last).Further() == cut.Further()
  {
    Regroup(cut.Further(), cut.more, last);
    NamesLonger(cut.name, cut.more, last);
  }

  lemma {:induction false} CutAboveParent(fs: Fs, parent: seq<Step>, links: nat, cut: Cut, anchor: Path, below: Path,
                       gap: seq<Step>, name: Name, slashes: seq<Step>)
    requires CutsAt(fs, parent, links, cut, anchor, below) && AllHere(gap) && AllHere(slashes)
    ensures
      var last := gap + [Down(name)] + slashes;
      CutsAt(fs, parent + last, links, cut.(more := cut.more + last), anchor, below + [name])
  {
    OneName(gap, name, slashes);
    SpellsLonger(parent, cut, below, gap + [Down(name)] + slashes);
  }

  lemma {:induction false} CutAtParent(fs: Fs, steps: seq<Step>, links: nat, gap: seq<Step>, name: Name, slashes: seq<Step>, parent: seq<Step>)
    requires parent + gap + [Down(name)] + slashes == steps && AllHere(gap) && AllHere(slashes)
    requires Canonicalize(fs, [], steps, links).None? && Canonicalize(fs, [], parent, links).Some?
    ensures CutsAt(fs, steps, links, Cut(parent, gap, name, slashes, []), Canonicalize(fs, [], parent, links).value, [name])
  {
    var cut := Cut(parent, gap, name, slashes, []);
    assert cut.Further() == steps && cut.Further() + [] == cut.Further();
    assert [name] + NamesIn([]) == [name];
  }

  lemma {:induction false} AnchorOfParent(fs: Fs, steps: seq<Step>, links: nat)
    requires Canonicalize(fs, [], steps, links).None? && FileName(steps).Some?
    ensures Anchor(fs, steps, links) == Extended(Anchor(fs, ParentOf(steps), links), [FileName(steps).value])
    ensures Canonicalize(fs, [], ParentOf(steps), links).Some? ==>
      Anchor(fs, ParentOf(steps), links) == Some((Canonicalize(fs, [], ParentOf(steps), links).value, []))
  {
  }

  lemma {:induction false} CutBelow(fs: Fs, steps: seq<Step>, links: nat, up: Cut, anchor: Path, below: Path) returns (cut: Cut)
    requires FileName(steps).Some? && CutsAt(fs, ParentOf(steps), links, up, anchor, below)
    ensures CutsAt(fs, steps, links, cut, anchor, below + [FileName(steps).value])
  {
    var name, parent := FileName(steps).value, ParentOf(steps);
    var gap, slashes := ParentSplits(steps);
    var last := gap + [Down(name)] + slashes;
    CutAboveParent(fs, parent, links, up, anchor, below, gap, name, slashes);
    assert parent + last == steps;
    cut := up.(more := up.more + last);
  }

  lemma {:induction false} AnchorCuts(fs: Fs, steps: seq<Step>, links: nat) returns (cut: Cut)
    requires Canonicalize(fs, [], steps, links).None? && Anchor(fs, steps, links).Some?
    ensures CutsAt(fs, steps, links, cut, Anchor(fs, steps, links).value.0, Anchor(fs, steps, links).value.1)
    decreases |steps|
  {
    var name, parent := FileName(steps).value, ParentOf(steps);
    AnchorOfParent(fs, steps, links);
    if Canonicalize(fs, [], parent, links).Some? {
      var gap, slashes := ParentSplits(steps);
      CutAtParent(fs, steps, links, gap, name, slashes, parent);
      cut := Cut(parent, gap, name, slashes, []);
      assert [] + [name] == [name];
    } else {
      var up := AnchorCuts(fs, parent, links);
      var (anchor, below) := Anchor(fs, parent, links).value;
      cut := CutBelow(fs, steps, links, up, anchor, below);
    }
  }

  /** The walk along a path that was cut, in a file system that has grown: as far
      as the anchor it is what it was. */
  lemma {:induction false} WalkFromAnchor(fs: Fs, more: Fs, steps: seq<Step>, links: nat, cut: Cut, anchor: Path, below: Path)
      returns (left: nat)
    requires Extends(fs, more) && fs([]).Directory? && CutsAt(fs, steps, links, cut, anchor, below)
    ensures IsCanonical(fs, anchor)
    ensures Walk(fs, anchor, cut.gap + [Down(cut.name)] + cut.slashes, left).None?
    ensures Walk(more, [], steps, links) == Walk(more, anchor, cut.gap + [Down(cut.name)] + cut.slashes + cut.more, left)
  {
    left := Walk(fs, [], cut.head, links).value.1;
    var step := cut.gap + [Down(cut.name)] + cut.slashes;
    WalkIsCanonical(fs, [], cut.head, links);
    WalkInLegs(fs, [], cut.head, step, links);
    assert cut.head + step == cut.Further();
    WalkSurvives(fs, more, [], cut.head, links);
    WalkInLegs(more, [], cut.head, step + cut.more, links);
    assert cut.head + (step + cut.more) == steps;
  }

  lemma {:induction false} RestIsNamed(steps: seq<Step>, cut: Cut, below: Path)
    requires Spells(steps, cut, below) && Up !in steps
    ensures
      var rest := cut.gap + [Down(cut.name)] + cut.slashes + cut.more;
      NamesIn(rest) == below && Up !in rest
  {
    var rest := cut.gap + [Down(cut.name)] + cut.slashes + cut.more;
    OneName(cut.gap, cut.name, cut.slashes);
    NamesInConcat(cut.gap + [Down(cut.name)] + cut.slashes, cut.more);
    assert steps == cut.head + rest;
    assert forall i :: 0 <= i < |rest| ==> rest[i] == steps[|cut.head| + i];
  }

  /** If the first missing name can be created, so can the rest, and the path then
      leads to where it was predicted to. */
  lemma {:induction false} PredictedIsReached(fs: Fs, links: nat, cut: Cut, anchor: Path, below: Path, steps: seq<Step>)
    requires WellFormed(fs) && Up !in steps && CutsAt(fs, steps, links, cut, anchor, below)
    requires fs(anchor).Directory? && fs(anchor + [below[0]]).Absent?
    ensures Canonicalize(WithDirectories(fs, anchor, below), [], steps, links) == Some(anchor + below)
  {
    var more := WithDirectories(fs, anchor, below);
    var rest := cut.gap + [Down(cut.name)] + cut.slashes + cut.more;
    WithDirectoriesExtends(fs, anchor, below);
    var left := WalkFromAnchor(fs, more, steps, links, cut, anchor, below);
    RestIsNamed(steps, cut, below);
    forall i | 0 <= i <= |below|
      ensures more(anchor + below[..i]).Directory?
    {
      MissingAreCreated(fs, anchor, below, i);
    }
    PlainWalk(more, anchor, rest, left);
  }

  /** A walk that begins with `Here` steps in a directory stays there. */
  lemma {:induction false} GapStays(fs: Fs, at: Path, gap: seq<Step>, rest: seq<Step>, links: nat)
    requires AllHere(gap) && fs(at).Directory?
    ensures Walk(fs, at, gap + rest, links) == Walk(fs, at, rest, links)
    decreases |gap|
  {
    if gap == [] {
      assert gap + rest == rest;
    } else {
      assert (gap + rest)[1..] == gap[1..] + rest;
      GapStays(fs, at, gap[1..], rest, links);
    }
  }

  lemma {:induction false} StepsAfterFile(fs: Fs, at: Path, steps: seq<Step>, links: nat)
    requires fs(at).File? && steps != []
    ensures Walk(fs, at, steps, links).None?
  {
  }

  /** What stands where the first missing name would go is a file that the path
      takes for a directory, or a link that does not resolve: no directory. */
  lemma {:induction false} NameIsBroken(fs: Fs, anchor: Path, cut: Cut, left: nat)
    requires AllHere(cut.gap) && AllHere(cut.slashes) && fs(anchor).Directory?
    requires Walk(fs, anchor, cut.gap + [Down(cut.name)] + cut.slashes, left).None?
    ensures !fs(anchor + [cut.name]).Directory?
    ensures fs(anchor + [cut.name]).File? ==> cut.slashes != []
  {
    var one := [Down(cut.name)] + cut.slashes;
    assert cut.gap + [Down(cut.name)] + cut.slashes == cut.gap + one;
    GapStays(fs, anchor, cut.gap, one, left);
    assert one[1..] == cut.slashes;
    AllHereHasNoNames(cut.slashes);
    assert cut.slashes + [] == cut.slashes;
    if fs(anchor + [cut.name]).Directory? {
      GapStays(fs, anchor + [cut.name], cut.slashes, [], left);
    }
  }

  /** Whatever is created, a path whose first missing name cannot be does not lead
      to where it was predicted to. */
  lemma {:induction false} OthersAreNotReached(fs: Fs, more: Fs, links: nat, cut: Cut, anchor: Path, below: Path, steps: seq<Step>)
    requires WellFormed(fs) && Extends(fs, more) && CutsAt(fs, steps, links, cut, anchor, below)
    requires !fs(anchor).Directory? || !fs(anchor + [below[0]]).Absent?
    ensures Canonicalize(more, [], steps, links) != Some(anchor + below)
  {
    var left := WalkFromAnchor(fs, more, steps, links, cut, anchor, below);
    var rest := cut.gap + [Down(cut.name)] + cut.slashes + cut.more;
    assert below[0] == cut.name;
    if fs(anchor).File? {
      StepsAfterFile(more, anchor, rest, left);
    } else {
      NameIsBroken(fs, anchor, cut, left);
      var first := anchor + [cut.name];
      assert more(first) == fs(first);
      if fs(first).File? {
        var one := [Down(cut.name)] + (cut.slashes + cut.more);
        assert rest == cut.gap + one && one[1..] == cut.slashes + cut.more;
        GapStays(more, anchor, cut.gap, one, left);
        StepsAfterFile(more, first, cut.slashes + cut.more, left);
      } else if Canonicalize(more, [], steps, links) == Some(anchor + below) {
        var end := anchor + below;
        assert |below| == 1 ==> end == first;
        assert |below| > 1 ==> end[..|anchor| + 1] == first;
        WalkIsCanonical(more, [], steps, links);
      }
    }
  }

  /** The prediction: the path `ResolveNew` returns for something that does not
      exist yet is the one it turns out to have once the missing directories are
      created, exactly if they can be: if the deepest ancestor that resolves is a
      directory and nothing, not even a dangling link, has the first missing name. */
  lemma {:induction false} CanonicalPrediction(fs: Fs, roots: seq<Path>, requested: string, links: nat)
    requires WellFormed(fs) && NewPath(fs, roots, requested, links).Ok?
    requires Canonicalize(fs, [], CheckAbsolute(requested).value, links).None?
    ensures
      var predicted := NewPath(fs, roots, requested, links);
      var (anchor, below) := Anchor(fs, CheckAbsolute(requested).value, links).value;
      var after := WithDirectories(fs, anchor, below);
      && below != []
      && (ResolveExisting(after, roots, requested, links) == predicted
          <==> fs(anchor).Directory? && fs(anchor + [below[0]]).Absent?)
  {
    var steps := CheckAbsolute(requested).value;
    var (anchor, below) := Anchor(fs, steps, links).value;
    var cut := AnchorCuts(fs, steps, links);
    AcceptedLiesUnderARoot(fs, roots, requested, links);
    WithDirectoriesExtends(fs, anchor, below);
    if fs(anchor).Directory? && fs(anchor + [below[0]]).Absent? {
      PredictedIsReached(fs, links, cut, anchor, below, steps);
    } else {
      OthersAreNotReached(fs, WithDirectories(fs, anchor, below), links, cut, anchor, below, steps);
    }
  }

  /** A canonical path is its own canonical form: opening what a resolver returned
      for an existing path opens what was checked. */
  lemma {:induction false} CanonicalIsFixed(fs: Fs, from: Path, steps: seq<Step>, links: nat, again: nat)
    requires fs([]).Directory? && IsCanonical(fs, from) && Canonicalize(fs, from, steps, links).Some?
    ensures
      var p := Canonicalize(fs, from, steps, links).value;
      Canonicalize(fs, [], Downs(p), again) == Some(p)
  {
    WalkIsCanonical(fs, from, steps, links);
    var p := Canonicalize(fs, from, steps, links).value;
    assert [] + p == p;
    CanonicalWalk(fs, [], p, again);
  }

  lemma {:induction false} CanonicalWalk(fs: Fs, at: Path, below: Path, links: nat)
    requires IsCanonical(fs, at + below)
    ensures Walk(fs, at, Downs(below), links) == Some((at + below, links))
    decreases |below|
  {
    if below == [] {
      assert at + below == at;
    } else {
      var next := at + [below[0]];
      assert (at + below)[..|at|] == at && next + below[1..] == at + below;
      assert Downs(below)[1..] == Downs(below[1..]);
      if |below| == 1 {
        assert next == at + below;
      } else {
        assert (at + below)[..|at| + 1] == next;
      }
      CanonicalWalk(fs, next, below[1..], links);
    }
  }

  // ---------------------------------------------------------------------------
  // Paths as they are written
  // ---------------------------------------------------------------------------

  /** Part by part: nothing and a dot stay where they are, two dots go up, and any
      other part is the name it spells. */
  lemma {:induction false} StepsAreTheParts(parts: seq<string>, i: nat)
    requires i < |parts|
    ensures StepsOf(parts)[i] == Here <==> parts[i] == "" || parts[i] == "."
    ensures StepsOf(parts)[i] == Up <==> parts[i] == ".."
    ensures forall n :: StepsOf(parts)[i] == Down(n) <==> n.text == parts[i] && parts[i] !in ["", ".", ".."]
  {
    if i > 0 {
      StepsAreTheParts(parts[1..], i - 1);
    }
  }

  /** A name a directory can have an entry by. */
  predicate IsProper(n: Name) {
    '/' !in n.text && n.text != "" && n.text != "." && n.text != ".."
  }

  predicate AllProper(p: Path) {
    forall i :: 0 <= i < |p| ==> IsProper(p[i])
  }

  function Texts(p: Path): seq<string> {
    if p == [] then [] else [p[0].text] + Texts(p[1..])
  }

  function BelowText(p: Path): string {
    if p == [] then "" else "/" + p[0].text + BelowText(p[1..])
  }

  /** A path as it is printed: the form the resolvers answer in. */
  function PathText(p: Path): string {
    if p == [] then "/" else BelowText(p)
  }

  lemma {:induction false} SplitBelow(first: string, p: Path)
    requires '/' !in first && AllProper(p)
    ensures Split(first + BelowText(p), '/') == [first] + Texts(p)
    decreases |p|
  {
    SplitNothing(first, '/');
    if p == [] {
      assert first + BelowText(p) == first;
    } else {
      assert IsProper(p[0]);
      SplitBelow(p[0].text, p[1..]);
      SplitFirst(first, p[0].text + BelowText(p[1..]));
      assert BelowText(p) == ['/'] + (p[0].text + BelowText(p[1..]));
    }
  }

  lemma {:induction false} SplitFirst(first: string, rest: string)
    requires '/' !in first
    ensures Split(first + (['/'] + rest), '/') == [first] + Split(rest, '/')
  {
    SplitNothing(first, '/');
    SplitAt(first, '/', rest);
    assert first + (['/'] + rest) == first + ['/'] + rest;
  }

  lemma {:induction false} ProperSteps(p: Path)
    requires AllProper(p)
    ensures StepsOf(Texts(p)) == Downs(p) && Up !in Downs(p)
  {
    if p != [] {
      ProperSteps(p[1..]);
      assert Texts(p)[1..] == Texts(p[1..]) && IsProper(p[0]);
      assert StepOf(p[0].text) == Down(p[0]);
    }
  }

  /** The steps of a printed path are its names. */
  lemma {:induction false} PathIsSpelled(p: Path)
    requires AllProper(p)
    ensures Spelled(PathText(p)) == if p == [] then [Here, Here] else [Here] + Downs(p)
    ensures CheckAbsolute(PathText(p)) == Ok(Spelled(PathText(p)))
  {
    ProperSteps(p);
    if p == [] {
      SplitNothing("", '/');
      SplitAt("", '/', "");
      assert PathText(p) == "" + ['/'] + "";
      assert Split(PathText(p), '/') == ["", ""];
      assert StepsOf(["", ""]) == [Here] + StepsOf([""]) && StepsOf([""]) == [Here] + StepsOf([]);
    } else {
      SplitBelow("", p);
      assert "" + BelowText(p) == BelowText(p);
      var parts := [""] + Texts(p);
      assert parts[1..] == Texts(p) && StepsOf(parts) == [Here] + Downs(p);
      assert BelowText(p)[0] == '/';
    }
    assert Up !in Spelled(PathText(p));
  }

  lemma {:induction false} CanonicalResolves(fs: Fs, p: Path, links: nat)
    requires fs([]).Directory? && IsCanonical(fs, p) && AllProper(p)
    ensures Canonicalize(fs, [], Spelled(PathText(p)), links) == Some(p)
  {
    PathIsSpelled(p);
    assert [] + p == p;
    if p == [] {
      assert [Here, Here][1..] == [Here] && [Here][1..] == [];
      assert Walk(fs, [], [Here], links) == Walk(fs, [], [], links);
    } else {
      assert ([Here] + Downs(p))[1..] == Downs(p);
      CanonicalWalk(fs, [], p, links);
    }
  }

  /** What a resolver returned, asked for again, is the same path: accepted by both
      exactly if it lies under a root. */
  lemma {:induction false} ReturnedPathsAreFixed(fs: Fs, roots: seq<Path>, p: Path, links: nat)
    requires fs([]).Directory? && IsCanonical(fs, p) && AllProper(p)
    ensures
      var r := if Under(roots, p) then Ok(p) else Err(OutsideRoots);
      ResolveExisting(fs, roots, PathText(p), links) == r && NewPath(fs, roots, PathText(p), links) == r
  {
    PathIsSpelled(p);
    CanonicalResolves(fs, p, links);
    ExistingIsDecided(fs, roots, PathText(p), links, p);
  }

  /** Up takes back the name before it, and stays at the top. */
  lemma {:induction false} UpTakesBack(fs: Fs, at: Path, n: Name, steps: seq<Step>, links: nat)
    requires fs(at).Directory? && fs(at + [n]).Directory?
    ensures Walk(fs, at, [Down(n), Up] + steps, links) == Walk(fs, at, steps, links)
    ensures fs([]).Directory? ==> Walk(fs, [], [Up] + steps, links) == Walk(fs, [], steps, links)
  {
    var both := [Down(n), Up] + steps;
    assert both[1..] == [Up] + steps && ([Up] + steps)[1..] == steps;
    assert (at + [n])[..|at|] == at;
  }

  /** A link stands for its target, read from the top or from where the link is, and
      costs one of the links that may be followed. */
  lemma {:induction false} LinkStandsForItsTarget(fs: Fs, at: Path, n: Name, steps: seq<Step>, links: nat)
    requires fs(at).Directory? && fs(at + [n]).Link?
    ensures
      var link := fs(at + [n]);
      Walk(fs, at, [Down(n)] + steps, links + 1) == Walk(fs, if link.absolute then [] else at, link.target + steps, links)
    ensures Walk(fs, at, [Down(n)] + steps, 0) == None
  {
    assert ([Down(n)] + steps)[1..] == steps;
  }

  /** The roots are where the configured paths lead, no more and no fewer. */
  lemma {:induction false} RootsAreThoseConfigured(fs: Fs, cwd: Path, configured: seq<string>, links: nat, p: Path)
    ensures p in UsableRoots(fs, cwd, configured, links)
       <==> exists raw <- configured :: CanonicalRoot(fs, cwd, raw, links) == Some(p)
  {
    if configured != [] {
      RootsAreThoseConfigured(fs, cwd, configured[1..], links, p);
      assert configured == [configured[0]] + configured[1..];
    }
  }

  /** A root is configured by its absolute path; no path at all configures none. */
  lemma {:induction false} RootIsWhatWasWritten(fs: Fs, cwd: Path, p: Path, links: nat)
    requires fs([]).Directory? && AllProper(p) && IsCanonical(fs, p)
    ensures CanonicalRoot(fs, cwd, PathText(p), links) == Some(p)
    ensures CanonicalRoot(fs, cwd, "", links) == None
  {
    PathIsSpelled(p);
    CanonicalResolves(fs, p, links);
  }

  lemma {:induction false} StartsWithName(n: Name, rest: string)
    requires IsProper(n)
    ensures n.text + rest != "" && !IsAbsolute(n.text + rest)
  {
    assert (n.text + rest)[0] == n.text[0];
  }

  lemma {:induction false} NameThenPath(n: Name, p: Path)
    requires IsProper(n) && AllProper(p)
    ensures Split(n.text + BelowText(p), '/') == Texts([n] + p)
  {
    SplitBelow(n.text, p);
    assert ([n] + p)[1..] == p;
  }

  lemma {:induction false} WithoutSlash(n: Name, p: Path)
    ensures BelowText([n] + p) != "" && BelowText([n] + p)[1..] == n.text + BelowText(p)
  {
    assert ([n] + p)[1..] == p;
    assert "/" + n.text + BelowText(p) == "/" + (n.text + BelowText(p));
  }

  lemma {:induction false} RelativeIsSpelled(p: Path)
    requires AllProper(p) && p != []
    ensures
      var raw := BelowText(p)[1..];
      raw != "" && !IsAbsolute(raw) && Spelled(raw) == Downs(p)
  {
    assert p == [p[0]] + p[1..];
    WithoutSlash(p[0], p[1..]);
    StartsWithName(p[0], BelowText(p[1..]));
    NameThenPath(p[0], p[1..]);
    ProperSteps(p);
  }

  /** Or by its path from the working directory. */
  lemma {:induction false} RootFromWorkingDirectory(fs: Fs, cwd: Path, p: Path, links: nat)
    requires AllProper(p) && p != [] && IsCanonical(fs, cwd + p)
    ensures CanonicalRoot(fs, cwd, BelowText(p)[1..], links) == Some(cwd + p)
  {
    RelativeIsSpelled(p);
    CanonicalWalk(fs, cwd, p, links);
  }

  lemma {:induction false} DownsSnoc(p: Path, n: Name)
    ensures Downs(p + [n]) == Downs(p) + [Down(n)]
  {
    if p == [] {
      assert [] + [n] == [n] && [n][1..] == [];
    } else {
      assert (p + [n])[1..] == p[1..] + [n];
      DownsSnoc(p[1..], n);
    }
  }

  /** The parent of a path that ends in a name is the path before it. */
  lemma {:induction false} ParentOfName(steps: seq<Step>, n: Name)
    ensures FileName(steps + [Down(n)]) == Some(n) && ParentOf(steps + [Down(n)]) == Trimmed(steps)
  {
    assert (steps + [Down(n)])[..|steps|] == steps;
  }

  lemma {:induction false} WalkToNothing(fs: Fs, at: Path, n: Name, more: Path, links: nat)
    requires fs(at + [n]).Absent?
    ensures Walk(fs, at, Downs([n] + more), links).None?
  {
  }

  lemma {:induction false} NothingThere(fs: Fs, p: Path, below: Path, links: nat)
    requires fs(p).Directory? && LinkFree(fs, p) && below != [] && fs(p + [below[0]]).Absent?
    ensures Walk(fs, [], [Here] + Downs(p + below), links).None?
  {
    assert below == [below[0]] + below[1..] && [] + p == p;
    assert ([Here] + Downs(p + below))[1..] == Downs(p + below);
    CanonicalWalk(fs, [], p, links);
    DownsConcat(p, below);
    WalkInLegs(fs, [], Downs(p), Downs(below), links);
    WalkToNothing(fs, p, below[0], below[1..], links);
  }

  lemma {:induction false} DownsConcat(a: Path, b: Path)
    ensures Downs(a + b) == Downs(a) + Downs(b)
  {
    if a == [] {
      assert a + b == b;
    } else {
      assert (a + b)[1..] == a[1..] + b && (a + b)[0] == a[0];
      DownsConcat(a[1..], b);
    }
  }

  lemma {:induction false} AnchorOfExisting(fs: Fs, p: Path, links: nat)
    requires fs([]).Directory? && fs(p).Directory? && LinkFree(fs, p)
    ensures Anchor(fs, Trimmed([Here] + Downs(p)), links) == Some((p, []))
  {
    if p == [] {
      assert Trimmed([Here]) == [];
    } else {
      DownsEnd(p);
      assert ([Here] + Downs(p))[1..] == Downs(p) && [] + p == p;
      CanonicalWalk(fs, [], p, links);
    }
  }

  lemma {:induction false} EndsInName(p: Path, init: Path, last: Name)
    ensures [Here] + Downs(p + (init + [last])) == ([Here] + Downs(p + init)) + [Down(last)]
  {
    assert p + (init + [last]) == (p + init) + [last];
    DownsSnoc(p + init, last);
  }

  /** A path that ends in a name that is not there has the anchor of the path before it. */
  lemma {:induction false} AnchorOneName(fs: Fs, parent: seq<Step>, last: Name, links: nat)
    requires Walk(fs, [], parent + [Down(last)], links).None?
    ensures
      Anchor(fs, Trimmed(parent + [Down(last)]), links) == Extended(Anchor(fs, Trimmed(parent), links), [last])
  {
    var steps := parent + [Down(last)];
    assert Trimmed(steps) == steps;
    ParentOfName(parent, last);
    AnchorOfParent(fs, steps, links);
  }

  lemma {:induction false} AnchorIsWhatExists(fs: Fs, p: Path, below: Path, links: nat)
    requires fs([]).Directory? && fs(p).Directory? && LinkFree(fs, p)
    requires below != [] ==> fs(p + [below[0]]).Absent?
    ensures Anchor(fs, Trimmed([Here] + Downs(p + below)), links) == Some((p, below))
    decreases |below|
  {
    if below == [] {
      assert p + below == p;
      AnchorOfExisting(fs, p, links);
    } else {
      var init, last := below[..|below| - 1], below[|below| - 1];
      assert init + [last] == below;
      EndsInName(p, init, last);
      NothingThere(fs, p, below, links);
      AnchorOneName(fs, [Here] + Downs(p + init), last, links);
      AnchorIsWhatExists(fs, p, init, links);
    }
  }

  lemma {:induction false} DownsEnd(p: Path)
    requires p != []
    ensures Trimmed([Here] + Downs(p)) == [Here] + Downs(p)
  {
    var init, last := p[..|p| - 1], p[|p| - 1];
    assert p == init + [last];
    DownsSnoc(init, last);
  }

  /** Names that are not there yet are accepted below a directory exactly if the
      directory lies under a root, and then as they were written. */
  lemma {:induction false} NewNamesAreAppended(fs: Fs, roots: seq<Path>, p: Path, below: Path, links: nat)
    requires fs([]).Directory? && fs(p).Directory? && LinkFree(fs, p)
    requires below != [] && fs(p + [below[0]]).Absent? && AllProper(p + below)
    ensures NewPath(fs, roots, PathText(p + below), links) == if Under(roots, p) then Ok(p + below) else Err(OutsideRoots)
    ensures ResolveExisting(fs, roots, PathText(p + below), links) == Err(OutsideRoots)
  {
    PathIsSpelled(p + below);
    NothingThere(fs, p, below, links);
    DownsEnd(p + below);
    AnchorIsWhatExists(fs, p, below, links);
    MissingIsDecided(fs, roots, PathText(p + below), links);
  }
}
