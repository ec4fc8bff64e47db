/** Two walks over the same tree of disks: one lists every real file system once, the
    other adds them up, counting a pool of APFS volumes once. */
module DiskTrees {
  import opened Wrappers
  import opened Text

  datatype System = Linux | Bsd | Windows

  /** Sizes are in KiB. */
  datatype Disk = Disk(
    path: string, mount: string, fsType: Option<string>, used: nat, size: nat, avail: nat, children: seq<Disk>)

  datatype DiskDetail = DiskDetail(
    path: string, mount: string, fsType: Option<string>, used: nat, total: nat, usagePercent: real)

  datatype DiskMetrics = DiskMetrics(total: nat, used: nat, free: nat, usagePercent: real)

  datatype PoolKey = PoolKey(base: string, size: nat, avail: nat)

  predicate IsRealDisk(system: System, d: Disk) {
    d.size > 0 && (system.Linux? ==> "/dev" <= d.path)
  }

  function Percent(used: nat, total: nat): real {
    if total == 0 then 0.0 else used as real / total as real * 100.0
  }

  lemma {:induction false} PercentIsShare(used: nat, total: nat)
    ensures total > 0 ==> Percent(used, total) * total as real == 100.0 * used as real
    ensures total == 0 ==> Percent(used, total) == 0.0
  {
    if total > 0 {
      var t := total as real;
      assert used as real / t * t == used as real;
      assert Percent(used, total) * t == (used as real / t * t) * 100.0;
    }
  }

  function DigitPrefix(s: string): string {
    if s != "" && '0' <= s[0] <= '9' then [s[0]] + DigitPrefix(s[1..]) else ""
  }

  /** The container an APFS volume belongs to, by the number of its disk and the
      size and free space that all its volumes report. */
  function ApfsPoolKey(d: Disk): Option<PoolKey> {
    var rest := StripPrefix(d.path, "/dev/disk");
    if rest.None? || DigitPrefix(rest.value) == "" then None
    else Some(PoolKey(DigitPrefix(rest.value), d.size, d.avail))
  }

  predicate DigitsOnly(s: string) {
    forall i :: 0 <= i < |s| ==> '0' <= s[i] <= '9'
  }

  lemma {:induction false} DigitPrefixIs(digits: string, rest: string)
    requires DigitsOnly(digits)
    requires rest != "" ==> !('0' <= rest[0] <= '9')
    ensures DigitPrefix(digits + rest) == digits
  {
    if digits == "" {
      assert digits + rest == rest;
    } else {
      assert (digits + rest)[1..] == digits[1..] + rest;
      DigitPrefixIs(digits[1..], rest);
    }
  }

  /** The volumes of disk N have keys with its number, their size and what is free;
      nothing else has a key. */
  lemma {:induction false} PoolKeyIs(d: Disk, digits: string, rest: string)
    requires DigitsOnly(digits)
    requires rest != "" ==> !('0' <= rest[0] <= '9')
    ensures d.path == "/dev/disk" + digits + rest ==>
      ApfsPoolKey(d) == if digits == "" then None else Some(PoolKey(digits, d.size, d.avail))
    ensures !("/dev/disk" <= d.path) ==> ApfsPoolKey(d) == None
  {
    if d.path == "/dev/disk" + digits + rest {
      assert d.path == "/dev/disk" + (digits + rest);
      StripPrefixAdded("/dev/disk", digits + rest);
      DigitPrefixIs(digits, rest);
    }
  }

  // ---------------------------------------------------------------------------
  // What the walks visit
  // ---------------------------------------------------------------------------

  /** Every node of the forest, parents before children. */
  function Preorder(disks: seq<Disk>): seq<Disk> {
    if disks == [] then [] else [disks[0]] + Preorder(disks[0].children) + Preorder(disks[1..])
  }

  function Paths(disks: seq<Disk>): (paths: seq<string>)
    ensures |paths| == |disks|
    ensures forall i :: 0 <= i < |disks| ==> paths[i] == disks[i].path
  {
    seq(|disks|, i requires 0 <= i < |disks| => disks[i].path)
  }

  /** The real disks of a list whose path is new: not `seen` and not further up. */
  function Firsts(system: System, disks: seq<Disk>, seen: seq<string>): seq<Disk> {
    if disks == [] then []
    else if IsRealDisk(system, disks[0]) && disks[0].path !in seen
    then [disks[0]] + Firsts(system, disks[1..], seen + [disks[0].path])
    else Firsts(system, disks[1..], seen)
  }

  function Rows(system: System, disks: seq<Disk>): seq<Disk> {
    Firsts(system, Preorder(disks), [])
  }

  lemma {:induction false} PreorderConcat(a: seq<Disk>, b: seq<Disk>)
    ensures Preorder(a + b) == Preorder(a) + Preorder(b)
    decreases |a|
  {
    if a == [] {
      assert a + b == b;
    } else {
      assert (a + b)[1..] == a[1..] + b;
      PreorderConcat(a[1..], b);
    }
  }

  lemma {:induction false} PreorderOne(disks: seq<Disk>, i: nat)
    requires i < |disks|
    ensures Preorder(disks[..i + 1]) == Preorder(disks[..i]) + ([disks[i]] + Preorder(disks[i].children))
  {
    assert disks[..i + 1] == disks[..i] + [disks[i]];
    PreorderConcat(disks[..i], [disks[i]]);
    assert [disks[i]][1..] == [];
    assert Preorder([disks[i]]) == [disks[i]] + Preorder(disks[i].children) + Preorder([]);
  }

  lemma {:induction false} FirstsConcat(system: System, a: seq<Disk>, b: seq<Disk>, seen: seq<string>)
    ensures
      var first := Firsts(system, a, seen);
      Firsts(system, a + b, seen) == first + Firsts(system, b, seen + Paths(first))
    decreases |a|
  {
    if a == [] {
      assert a + b == b && seen + Paths([]) == seen;
    } else {
      var d := a[0];
      assert (a + b)[1..] == a[1..] + b;
      if IsRealDisk(system, d) && d.path !in seen {
        var rest := Firsts(system, a[1..], seen + [d.path]);
        FirstsConcat(system, a[1..], b, seen + [d.path]);
        assert seen + [d.path] + Paths(rest) == seen + Paths([d] + rest);
      } else {
        FirstsConcat(system, a[1..], b, seen);
      }
    }
  }

  lemma {:induction false} FirstsCons(system: System, d: Disk, rest: seq<Disk>, seen: seq<string>)
    ensures Firsts(system, [d] + rest, seen)
         == if IsRealDisk(system, d) && d.path !in seen then [d] + Firsts(system, rest, seen + [d.path])
            else Firsts(system, rest, seen)
  {
    assert ([d] + rest)[1..] == rest;
  }

  /** The rows that the first `i` trees of a forest contribute. */
  function RowsUpTo(system: System, disks: seq<Disk>, i: nat, seen: seq<string>): seq<Disk>
    requires i <= |disks|
  {
    Firsts(system, Preorder(disks[..i]), seen)
  }

  predicate IsNew(system: System, d: Disk, seen: seq<string>) {
    IsRealDisk(system, d) && d.path !in seen
  }

  lemma {:induction false} PathsConcat(seen: seq<string>, a: seq<Disk>, b: seq<Disk>)
    ensures seen + Paths(a) + Paths(b) == seen + Paths(a + b)
  {
  }

  lemma {:induction false} PathsOneMore(seen: seq<string>, rows: seq<Disk>, d: Disk)
    ensures seen + Paths(rows) + [d.path] == seen + Paths(rows + [d])
  {
  }

  /** The next tree contributes its root, if it is new, and what is new below it. */
  lemma {:induction false} RowsOneMore(system: System, disks: seq<Disk>, i: nat, seen: seq<string>, rows: seq<Disk>)
      returns (more: seq<Disk>, under: seq<Disk>)
    requires i < |disks| && rows == RowsUpTo(system, disks, i, seen)
    ensures more == if IsNew(system, disks[i], seen + Paths(rows)) then rows + [disks[i]] else rows
    ensures under == Firsts(system, Preorder(disks[i].children), seen + Paths(more))
    ensures RowsUpTo(system, disks, i + 1, seen) == more + under
  {
    var d := disks[i];
    var below := Preorder(d.children);
    PreorderOne(disks, i);
    FirstsConcat(system, Preorder(disks[..i]), [d] + below, seen);
    FirstsCons(system, d, below, seen + Paths(rows));
    more := if IsNew(system, d, seen + Paths(rows)) then rows + [d] else rows;
    under := Firsts(system, below, seen + Paths(more));
    if IsNew(system, d, seen + Paths(rows)) {
      PathsOneMore(seen, rows, d);
      Regroup(rows, [d], under);
    }
  }

  // ---------------------------------------------------------------------------
  // The flat view
  // ---------------------------------------------------------------------------

  function Detail(d: Disk): DiskDetail {
    DiskDetail(d.path, d.mount, d.fsType, d.used * 1024, d.size * 1024, Percent(d.used, d.size))
  }

  /** A row tells of its disk where it is and what it is, in bytes. */
  lemma {:induction false} DetailTells(d: Disk)
    ensures
      var row := Detail(d);
      && row.path == d.path && row.mount == d.mount && row.fsType == d.fsType
      && row.used == 1024 * d.used && row.total == 1024 * d.size
      && (d.size > 0 ==> row.usagePercent * d.size as real == 100.0 * d.used as real)
      && (d.size == 0 ==> row.usagePercent == 0.0)
  {
    PercentIsShare(d.used, d.size);
  }

  function Details(disks: seq<Disk>): seq<DiskDetail> {
    if disks == [] then [] else Details(disks[..|disks| - 1]) + [Detail(disks[|disks| - 1])]
  }

  method WalkFlat(system: System, disks: seq<Disk>, seen: seq<string>, out: seq<DiskDetail>)
      returns (seen': seq<string>, out': seq<DiskDetail>)
    ensures
      var rows := Firsts(system, Preorder(disks), seen);
      seen' == seen + Paths(rows) && out' == out + Details(rows)
    decreases disks
  {
    seen', out' := seen, out;
    ghost var rows: seq<Disk> := [];
    for i := 0 to |disks|
      invariant rows == RowsUpTo(system, disks, i, seen)
      invariant seen' == seen + Paths(rows) && out' == out + Details(rows)
    {
      var d := disks[i];
      ghost var more, under := RowsOneMore(system, disks, i, seen, rows);
      if IsRealDisk(system, d) && d.path !in seen' {
        PathsOneMore(seen, rows, d);
        DetailsOne(out, rows, d);
        seen' := seen' + [d.path];
        out' := out' + [Detail(d)];
      }
      seen', out' := WalkFlat(system, d.children, seen', out');
      PathsConcat(seen, more, under);
      DetailsConcat(out, more, under);
      rows := more + under;
    }
    assert disks[..|disks|] == disks;
  }

  lemma {:induction false} DetailsConcat(out: seq<DiskDetail>, a: seq<Disk>, b: seq<Disk>)
    ensures out + Details(a) + Details(b) == out + Details(a + b)
    decreases |b|
  {
    if b == [] {
      assert a + b == a;
    } else {
      var init, last := b[..|b| - 1], b[|b| - 1];
      DetailsConcat(out, a, init);
      assert (a + b)[..|a + b| - 1] == a + init;
      Regroup(out + Details(a), Details(init), [Detail(last)]);
      Regroup(out, Details(a + init), [Detail(last)]);
    }
  }

  lemma {:induction false} DetailsOne(out: seq<DiskDetail>, rows: seq<Disk>, d: Disk)
    ensures out + Details(rows) + [Detail(d)] == out + Details(rows + [d])
  {
    assert (rows + [d])[..|rows|] == rows;
  }

  method FlattenDisks(system: System, disks: seq<Disk>) returns (out: seq<DiskDetail>)
    ensures out == Details(Rows(system, disks))
  {
    var _, rows := WalkFlat(system, disks, [], []);
    assert [] + Details(Rows(system, disks)) == Details(Rows(system, disks));
    return rows;
  }

  // ---------------------------------------------------------------------------
  // The aggregate
  // ---------------------------------------------------------------------------

  /** What the aggregate has accumulated: the pools it has met, and three sums. */
  datatype Sums = Sums(pools: seq<PoolKey>, total: nat, used: nat, avail: nat)

  predicate Pooled(d: Disk, pools: seq<PoolKey>) {
    ApfsPoolKey(d).Some? && ApfsPoolKey(d).value in pools
  }

  function Added(s: Sums, d: Disk): Sums {
    if Pooled(d, s.pools) then s.(used := s.used + d.used)
    else
      var pools := if ApfsPoolKey(d).Some? then s.pools + [ApfsPoolKey(d).value] else s.pools;
      Sums(pools, s.total + d.size, s.used + d.used, s.avail + d.avail)
  }

  function SumsOf(rows: seq<Disk>): Sums {
    if rows == [] then Sums([], 0, 0, 0) else Added(SumsOf(rows[..|rows| - 1]), rows[|rows| - 1])
  }

  lemma {:induction false} SumsOneMore(before: seq<Disk>, rows: seq<Disk>, d: Disk)
    ensures SumsOf(before + (rows + [d])) == Added(SumsOf(before + rows), d)
  {
    var all := before + (rows + [d]);
    assert all[..|all| - 1] == before + rows;
  }

  method Add(sums: Sums, d: Disk) returns (r: Sums)
    ensures r == Added(sums, d)
  {
    r := sums;
    var pooled := false;
    var key := ApfsPoolKey(d);
    if key.Some? && key.value in r.pools {
      pooled := true;
    } else if key.Some? {
      r := r.(pools := r.pools + [key.value]);
    }
    r := r.(used := r.used + d.used);
    if !pooled {
      r := r.(total := r.total + d.size);
      r := r.(avail := r.avail + d.avail);
    }
  }

  method WalkSums(system: System, disks: seq<Disk>, ghost before: seq<Disk>, seen: seq<string>, sums: Sums)
      returns (seen': seq<string>, sums': Sums)
    requires sums == SumsOf(before)
    ensures
      var rows := Firsts(system, Preorder(disks), seen);
      seen' == seen + Paths(rows) && sums' == SumsOf(before + rows)
    decreases disks
  {
    seen', sums' := seen, sums;
    ghost var rows: seq<Disk> := [];
    assert before + rows == before;
    for i := 0 to |disks|
      invariant rows == RowsUpTo(system, disks, i, seen)
      invariant seen' == seen + Paths(rows) && sums' == SumsOf(before + rows)
    {
      var d := disks[i];
      ghost var more, under := RowsOneMore(system, disks, i, seen, rows);
      if IsRealDisk(system, d) && d.path !in seen' {
        PathsOneMore(seen, rows, d);
        SumsOneMore(before, rows, d);
        seen' := seen' + [d.path];
        sums' := Add(sums', d);
      }
      seen', sums' := WalkSums(system, d.children, before + more, seen', sums');
      PathsConcat(seen, more, under);
      Regroup(before, more, under);
      rows := more + under;
    }
    assert disks[..|disks|] == disks;
  }

  method AggregateDisks(system: System, disks: seq<Disk>) returns (m: DiskMetrics)
    ensures
      var sums := SumsOf(Rows(system, disks));
      m == DiskMetrics(sums.total * 1024, sums.used * 1024, sums.avail * 1024, Percent(sums.used, sums.total))
  {
    var _, sums := WalkSums(system, disks, [], [], Sums([], 0, 0, 0));
    assert [] + Rows(system, disks) == Rows(system, disks);
    return DiskMetrics(sums.total * 1024, sums.used * 1024, sums.avail * 1024, Percent(sums.used, sums.total));
  }

  // ---------------------------------------------------------------------------
  // What the rows are
  // ---------------------------------------------------------------------------

  ghost predicate DistinctPaths(rows: seq<Disk>) {
    forall i, j :: 0 <= i < j < |rows| ==> rows[i].path != rows[j].path
  }

  ghost predicate HasRow(rows: seq<Disk>, path: string) {
    exists i :: 0 <= i < |rows| && rows[i].path == path
  }

  /** `r` is the first real disk of its path in `disks`. */
  ghost predicate IsFirst(system: System, disks: seq<Disk>, r: Disk) {
    exists k :: 0 <= k < |disks| && disks[k] == r && IsRealDisk(system, r)
      && forall j :: 0 <= j < k && IsRealDisk(system, disks[j]) ==> disks[j].path != r.path
  }

  lemma {:induction false} FirstOfTail(system: System, disks: seq<Disk>, r: Disk)
    requires disks != [] && IsFirst(system, disks[1..], r)
    requires IsRealDisk(system, disks[0]) ==> disks[0].path != r.path
    ensures IsFirst(system, disks, r)
  {
    var rest := disks[1..];
    var k :| 0 <= k < |rest| && rest[k] == r
      && forall j :: 0 <= j < k && IsRealDisk(system, rest[j]) ==> rest[j].path != r.path;
    forall j | 0 <= j < k + 1 && IsRealDisk(system, disks[j])
      ensures disks[j].path != r.path
    {
      if j > 0 {
        assert rest[j - 1] == disks[j];
      }
    }
    assert disks[k + 1] == r;
  }

  lemma {:induction false} EachRowIsFirst(system: System, disks: seq<Disk>, seen: seq<string>, i: nat)
    requires i < |Firsts(system, disks, seen)|
    ensures
      var row := Firsts(system, disks, seen)[i];
      IsFirst(system, disks, row) && row.path !in seen
    decreases |disks|
  {
    var d, row := disks[0], Firsts(system, disks, seen)[i];
    if IsRealDisk(system, d) && d.path !in seen {
      if i > 0 {
        EachRowIsFirst(system, disks[1..], seen + [d.path], i - 1);
        assert d.path in seen + [d.path];
        FirstOfTail(system, disks, row);
      }
    } else {
      EachRowIsFirst(system, disks[1..], seen, i);
      FirstOfTail(system, disks, row);
    }
  }

  lemma {:induction false} RowsDiffer(system: System, disks: seq<Disk>, seen: seq<string>)
    ensures DistinctPaths(Firsts(system, disks, seen))
    decreases |disks|
  {
    if disks != [] {
      var d, rest := disks[0], disks[1..];
      if IsRealDisk(system, d) && d.path !in seen {
        RowsDiffer(system, rest, seen + [d.path]);
        var rows := Firsts(system, rest, seen + [d.path]);
        forall j | 0 <= j < |rows|
          ensures rows[j].path != d.path
        {
          EachRowIsFirst(system, rest, seen + [d.path], j);
        }
      } else {
        RowsDiffer(system, rest, seen);
      }
    }
  }

  lemma {:induction false} EveryRealPathHasARow(system: System, disks: seq<Disk>, seen: seq<string>, k: nat)
    requires k < |disks| && IsRealDisk(system, disks[k]) && disks[k].path !in seen
    ensures HasRow(Firsts(system, disks, seen), disks[k].path)
    decreases |disks|
  {
    var d, rest := disks[0], disks[1..];
    var rows := Firsts(system, disks, seen);
    if IsRealDisk(system, d) && d.path !in seen {
      if d.path == disks[k].path {
        assert rows[0] == d;
      } else {
        EveryRealPathHasARow(system, rest, seen + [d.path], k - 1);
        var i :| 0 <= i < |rows[1..]| && rows[1..][i].path == disks[k].path;
        assert rows[i + 1].path == disks[k].path;
      }
    } else {
      EveryRealPathHasARow(system, rest, seen, k - 1);
    }
  }

  /** A disk that holds something, and on Linux has a device: what else `df` lists
      there is no disk. */
  predicate HoldsData(system: System, d: Disk) {
    d.size >= 1 && match system
                   case Linux => |d.path| >= 4 && d.path[..4] == "/dev"
                   case Bsd => true
                   case Windows => true
  }

  /** The rows are the real paths of the tree, each once, each taken from the first
      node, parents before children, that has it. */
  lemma {:induction false} RowsAreTheRealPaths(system: System, disks: seq<Disk>)
    ensures DistinctPaths(Rows(system, disks))
    ensures forall r <- Rows(system, disks) :: HoldsData(system, r) && IsFirst(system, Preorder(disks), r)
    ensures forall d <- Preorder(disks) :: HoldsData(system, d) ==> HasRow(Rows(system, disks), d.path)
  {
    var nodes := Preorder(disks);
    RowsDiffer(system, nodes, []);
    forall r <- Rows(system, disks)
      ensures HoldsData(system, r) && IsFirst(system, nodes, r)
    {
      var i :| 0 <= i < |Rows(system, disks)| && Rows(system, disks)[i] == r;
      EachRowIsFirst(system, nodes, [], i);
    }
    forall d <- nodes | HoldsData(system, d)
      ensures HasRow(Rows(system, disks), d.path)
    {
      var k :| 0 <= k < |nodes| && nodes[k] == d;
      EveryRealPathHasARow(system, nodes, [], k);
    }
  }

  // ---------------------------------------------------------------------------
  // The two views agree
  // ---------------------------------------------------------------------------

  function UsedIn(details: seq<DiskDetail>): nat {
    if details == [] then 0 else UsedIn(details[..|details| - 1]) + details[|details| - 1].used
  }

  function TotalIn(details: seq<DiskDetail>): nat {
    if details == [] then 0 else TotalIn(details[..|details| - 1]) + details[|details| - 1].total
  }

  lemma {:induction false} DetailsOneMore(rows: seq<Disk>)
    requires rows != []
    ensures
      var init, last := rows[..|rows| - 1], rows[|rows| - 1];
      && UsedIn(Details(rows)) == UsedIn(Details(init)) + last.used * 1024
      && TotalIn(Details(rows)) == TotalIn(Details(init)) + last.size * 1024
  {
    var init := Details(rows[..|rows| - 1]);
    assert Details(rows)[..|Details(rows)| - 1] == init;
  }

  lemma {:induction false} PoolsAreTheKeys(rows: seq<Disk>, key: PoolKey)
    ensures key in SumsOf(rows).pools <==> exists i :: 0 <= i < |rows| && ApfsPoolKey(rows[i]) == Some(key)
  {
    if rows != [] {
      var n := |rows| - 1;
      PoolsAreTheKeys(rows[..n], key);
      if i :| 0 <= i < n && ApfsPoolKey(rows[..n][i]) == Some(key) {
        assert rows[i] == rows[..n][i];
      }
      if i :| 0 <= i < |rows| && ApfsPoolKey(rows[i]) == Some(key) {
        if i < n {
          assert rows[..n][i] == rows[i];
        }
      }
    }
  }

  ghost predicate NoSharedPool(rows: seq<Disk>) {
    forall i, j :: 0 <= i < j < |rows| && ApfsPoolKey(rows[i]).Some? ==> ApfsPoolKey(rows[i]) != ApfsPoolKey(rows[j])
  }

  lemma {:induction false} LastIsPooled(rows: seq<Disk>)
    requires rows != []
    ensures
      var n := |rows| - 1;
      NoSharedPool(rows) <==> NoSharedPool(rows[..n]) && !Pooled(rows[n], SumsOf(rows[..n]).pools)
  {
    var n := |rows| - 1;
    var init, last := rows[..n], rows[n];
    if ApfsPoolKey(last).Some? {
      PoolsAreTheKeys(init, ApfsPoolKey(last).value);
    }
    assert forall i :: 0 <= i < n ==> init[i] == rows[i];
    if NoSharedPool(init) && !Pooled(last, SumsOf(init).pools) {
      forall i, j | 0 <= i < j < |rows| && ApfsPoolKey(rows[i]).Some?
        ensures ApfsPoolKey(rows[i]) != ApfsPoolKey(rows[j])
      {
        assert rows[i] == init[i];
        assert j < n ==> rows[j] == init[j];
      }
    }
  }

  lemma {:induction false} SumsAgree(rows: seq<Disk>)
    requires forall i :: 0 <= i < |rows| ==> rows[i].size > 0
    ensures SumsOf(rows).used * 1024 == UsedIn(Details(rows))
    ensures SumsOf(rows).total * 1024 <= TotalIn(Details(rows))
    ensures SumsOf(rows).total * 1024 == TotalIn(Details(rows)) <==> NoSharedPool(rows)
  {
    if rows != [] {
      var init := rows[..|rows| - 1];
      SumsAgree(init);
      DetailsOneMore(rows);
      LastIsPooled(rows);
      assert rows[|rows| - 1].size > 0;
    }
  }

  /** The aggregate and the rows of one forest agree: the same space is used, and the
      aggregate's total falls short of the rows' exactly if two rows are volumes of
      one pool. */
  lemma {:induction false} WalksAgree(system: System, disks: seq<Disk>)
    ensures
      var rows := Rows(system, disks);
      var sums, details := SumsOf(rows), Details(rows);
      && sums.used * 1024 == UsedIn(details)
      && sums.total * 1024 <= TotalIn(details)
      && (sums.total * 1024 == TotalIn(details) <==> NoSharedPool(rows))
  {
    var rows := Rows(system, disks);
    forall i | 0 <= i < |rows|
      ensures rows[i].size > 0
    {
      EachRowIsFirst(system, Preorder(disks), [], i);
    }
    SumsAgree(rows);
  }

  function PoolSizes(pools: seq<PoolKey>): nat {
    if pools == [] then 0 else PoolSizes(pools[..|pools| - 1]) + pools[|pools| - 1].size
  }

  function PoollessSizes(rows: seq<Disk>): nat {
    if rows == [] then 0
    else
      PoollessSizes(rows[..|rows| - 1])
      + if ApfsPoolKey(rows[|rows| - 1]).None? then rows[|rows| - 1].size else 0
  }

  function PoolFree(pools: seq<PoolKey>): nat {
    if pools == [] then 0 else PoolFree(pools[..|pools| - 1]) + pools[|pools| - 1].avail
  }

  function PoollessFree(rows: seq<Disk>): nat {
    if rows == [] then 0
    else
      PoollessFree(rows[..|rows| - 1])
      + if ApfsPoolKey(rows[|rows| - 1]).None? then rows[|rows| - 1].avail else 0
  }

  /** Each pool counts once, with the size and the free space its volumes share, and
      each volume that is in no pool counts with its own. */
  lemma {:induction false} EachPoolCountsOnce(rows: seq<Disk>)
    ensures SumsOf(rows).total == PoolSizes(SumsOf(rows).pools) + PoollessSizes(rows)
    ensures SumsOf(rows).avail == PoolFree(SumsOf(rows).pools) + PoollessFree(rows)
    ensures DistinctPools(SumsOf(rows).pools)
  {
    if rows != [] {
      var init, last := rows[..|rows| - 1], rows[|rows| - 1];
      EachPoolCountsOnce(init);
      PoolCounted(SumsOf(init), last);
    }
  }

  ghost predicate DistinctPools(pools: seq<PoolKey>) {
    forall i, j :: 0 <= i < j < |pools| ==> pools[i] != pools[j]
  }

  lemma {:induction false} PoolCounted(s: Sums, d: Disk)
    requires DistinctPools(s.pools)
    ensures DistinctPools(Added(s, d).pools)
    ensures Added(s, d).total - PoolSizes(Added(s, d).pools)
         == s.total - PoolSizes(s.pools) + if ApfsPoolKey(d).None? then d.size else 0
    ensures Added(s, d).avail - PoolFree(Added(s, d).pools)
         == s.avail - PoolFree(s.pools) + if ApfsPoolKey(d).None? then d.avail else 0
  {
    if ApfsPoolKey(d).Some? {
      var key := ApfsPoolKey(d).value;
      assert (s.pools + [key])[..|s.pools|] == s.pools;
    }
  }
}
