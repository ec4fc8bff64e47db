/** Saving `config.toml`: a backup of what was there, the oldest backups pruned, and
    a replacement that no crash can leave half done. */
module ConfigFile {
  import opened Wrappers

  const MAX_BACKUPS := 5

  /** The names in the directory of the configuration; a backup is any whose name
      has the backup prefix, with the stamp that follows it. */
  datatype FileName = ConfigToml | Temp(pid: nat) | Backup(stamp: int) | Other(text: string)

  datatype File = File(content: string, mtime: int, synced: bool)

  type Files = map<FileName, File>

  function ConfigOf(files: Files): Option<File> {
    if ConfigToml in files then Some(files[ConfigToml]) else None
  }

  function BackupNames(files: Files): set<FileName> {
    set n <- files | n.Backup?
  }

  // ---------------------------------------------------------------------------
  // Pruning
  // ---------------------------------------------------------------------------

  /** `after` is `before` less some backups. */
  ghost predicate OnlyBackupsGone(before: Files, after: Files) {
    && (forall n <- after :: n in before && after[n] == before[n])
    && (forall n <- before :: !n.Backup? ==> n in after)
  }

  /** Of the backups in `before`, the newest five are left. */
  ghost predicate NewestKept(before: Files, after: Files) {
    && OnlyBackupsGone(before, after)
    && |BackupNames(after)| == (if |BackupNames(before)| <= MAX_BACKUPS then |BackupNames(before)| else MAX_BACKUPS)
    && (forall gone <- before, kept <- after :: gone !in after && kept.Backup? ==> before[gone].mtime <= before[kept].mtime)
  }

  type Aged = seq<(int, FileName)>

  function NewestFirst(entry: (int, FileName), backups: Aged): (r: Aged)
    ensures |r| == |backups| + 1
  {
    if backups == [] || entry.0 > backups[0].0 then [entry] + backups
    else [backups[0]] + NewestFirst(entry, backups[1..])
  }

  function SortedByAge(backups: Aged): (r: Aged)
    ensures |r| == |backups|
  {
    if backups == [] then [] else NewestFirst(backups[|backups| - 1], SortedByAge(backups[..|backups| - 1]))
  }

  ghost predicate Descending(backups: Aged) {
    forall i, j :: 0 <= i < j < |backups| ==> backups[i].0 >= backups[j].0
  }

  lemma {:induction false} NewestFirstKeepsAll(entry: (int, FileName), backups: Aged)
    ensures multiset(NewestFirst(entry, backups)) == multiset(backups) + multiset{entry}
  {
    if !(backups == [] || entry.0 > backups[0].0) {
      NewestFirstKeepsAll(entry, backups[1..]);
      assert backups == [backups[0]] + backups[1..];
    }
  }

  ghost predicate NoneNewer(backups: Aged, age: int) {
    forall i :: 0 <= i < |backups| ==> age >= backups[i].0
  }

  lemma {:induction false} NewestFirstIsNoNewer(entry: (int, FileName), backups: Aged, age: int)
    requires NoneNewer(backups, age) && age >= entry.0
    ensures NoneNewer(NewestFirst(entry, backups), age)
  {
    if !(backups == [] || entry.0 > backups[0].0) {
      NewestFirstIsNoNewer(entry, backups[1..], age);
    }
  }

  lemma {:induction false} NewestFirstSorts(entry: (int, FileName), backups: Aged)
    requires Descending(backups)
    ensures Descending(NewestFirst(entry, backups))
  {
    if !(backups == [] || entry.0 > backups[0].0) {
      NewestFirstSorts(entry, backups[1..]);
      NewestFirstIsNoNewer(entry, backups[1..], backups[0].0);
    }
  }

  lemma {:induction false} SortedByAgeSorts(backups: Aged)
    ensures Descending(SortedByAge(backups))
    ensures multiset(SortedByAge(backups)) == multiset(backups)
  {
    if backups != [] {
      var init := backups[..|backups| - 1];
      SortedByAgeSorts(init);
      NewestFirstSorts(backups[|backups| - 1], SortedByAge(init));
      NewestFirstKeepsAll(backups[|backups| - 1], SortedByAge(init));
      assert backups == init + [backups[|backups| - 1]];
    }
  }

  function NamesOf(backups: Aged): set<FileName> {
    set e <- backups :: e.1
  }

  lemma {:induction false} AtMostOneEach(backups: Aged)
    ensures |NamesOf(backups)| <= |backups|
  {
    if backups != [] {
      var init, last := backups[..|backups| - 1], backups[|backups| - 1];
      assert backups == init + [last];
      assert NamesOf(backups) == NamesOf(init) + {last.1};
      AtMostOneEach(init);
    }
  }

  /** A listing without repetition has none across its parts either. */
  lemma {:induction false} PartsDoNotOverlap(a: Aged, b: Aged)
    requires |NamesOf(a + b)| == |a| + |b|
    ensures |NamesOf(a)| == |a| && NamesOf(a + b) == NamesOf(a) + NamesOf(b) && NamesOf(a) * NamesOf(b) == {}
  {
    var x, y := NamesOf(a), NamesOf(b);
    AtMostOneEach(a);
    AtMostOneEach(b);
    assert NamesOf(a + b) == x + y;
    assert |x + y| == |x| + |y| - |x * y|;
    assert |x * y| == 0;
  }

  lemma {:induction false} Located(backups: Aged, name: FileName) returns (i: nat)
    requires name in NamesOf(backups)
    ensures i < |backups| && backups[i].1 == name
  {
    var e :| e in backups && e.1 == name;
    i :| 0 <= i < |backups| && backups[i] == e;
  }

  /** The listing of all the backups of a directory, each with its age. */
  ghost predicate ListsBackups(files: Files, names: set<FileName>, backups: Aged) {
    && NamesOf(backups) == names && |backups| == |names|
    && forall e <- backups :: e.1 in files && e.0 == files[e.1].mtime
  }

  lemma {:induction false} ListedOneMore(files: Files, names: set<FileName>, backups: Aged, name: FileName)
    requires ListsBackups(files, names, backups) && name in files && name !in names
    ensures ListsBackups(files, names + {name}, backups + [(files[name].mtime, name)])
  {
    var more := backups + [(files[name].mtime, name)];
    assert NamesOf(more) == NamesOf(backups) + {name};
  }

  lemma {:induction false} SortingKeepsTheListing(files: Files, names: set<FileName>, backups: Aged)
    requires ListsBackups(files, names, backups)
    ensures ListsBackups(files, names, SortedByAge(backups)) && Descending(SortedByAge(backups))
  {
    SortedByAgeSorts(backups);
    var sorted := SortedByAge(backups);
    forall e
      ensures e in sorted <==> e in backups
    {
      assert e in sorted <==> e in multiset(sorted);
      assert e in backups <==> e in multiset(backups);
    }
  }

  lemma {:induction false} HeadIsNewer(files: Files, sorted: Aged, k: nat, kept: FileName, gone: FileName)
    requires ListsBackups(files, BackupNames(files), sorted) && Descending(sorted) && k <= |sorted|
    requires kept in NamesOf(sorted[..k]) && gone in NamesOf(sorted[k..])
    ensures kept in files && gone in files && files[gone].mtime <= files[kept].mtime
  {
    var i := Located(sorted[..k], kept);
    var j := Located(sorted[k..], gone);
    assert sorted[i] in sorted && sorted[k + j] in sorted;
  }

  lemma {:induction false} HeadIsLeft(files: Files, sorted: Aged, k: nat)
    requires ListsBackups(files, BackupNames(files), sorted) && k <= |sorted|
    ensures BackupNames(files - NamesOf(sorted[k..])) == NamesOf(sorted[..k]) && |NamesOf(sorted[..k])| == k
  {
    var a, b := sorted[..k], sorted[k..];
    assert sorted == a + b;
    PartsDoNotOverlap(a, b);
    forall n
      ensures n in BackupNames(files - NamesOf(b)) <==> n in NamesOf(a)
    {
      assert n in BackupNames(files) <==> n in NamesOf(a) || n in NamesOf(b);
      assert n !in NamesOf(a) * NamesOf(b);
    }
  }

  /** Removing what comes after the first five of the sorted listing. */
  lemma {:induction false} TailIsOldest(files: Files, sorted: Aged)
    requires ListsBackups(files, BackupNames(files), sorted) && Descending(sorted)
    requires |sorted| > MAX_BACKUPS
    ensures NewestKept(files, files - NamesOf(sorted[MAX_BACKUPS..]))
  {
    var gone := NamesOf(sorted[MAX_BACKUPS..]);
    HeadIsLeft(files, sorted, MAX_BACKUPS);
    assert gone <= BackupNames(files) by {
      assert sorted == sorted[..MAX_BACKUPS] + sorted[MAX_BACKUPS..];
    }
    forall n <- files, kept <- files - gone | n in gone && kept.Backup?
      ensures files[n].mtime <= files[kept].mtime
    {
      assert kept in BackupNames(files - gone);
      HeadIsNewer(files, sorted, MAX_BACKUPS, kept, n);
    }
  }

  ghost predicate DistinctAges(files: Files) {
    forall m <- files, n <- files :: m.Backup? && n.Backup? && m != n ==> files[m].mtime != files[n].mtime
  }

  function Newer(files: Files, n: FileName): set<FileName>
    requires n in files
  {
    set m <- files | m.Backup? && files[m].mtime > files[n].mtime
  }

  /** The files without the backups that have five newer ones. */
  function Pruned(files: Files): Files {
    map n <- files | !n.Backup? || |Newer(files, n)| < MAX_BACKUPS :: files[n]
  }

  lemma {:induction false} SubsetIsSmaller<T>(a: set<T>, b: set<T>)
    requires a <= b
    ensures |a| <= |b|
    ensures a != b ==> |a| < |b|
  {
    assert b == a + (b - a);
    if a != b {
      assert b - a != {};
    }
  }

  /** No two backups being of one age, which five are left is determined. */
  lemma {:induction false} NewestKeptIsPruned(before: Files, after: Files)
    requires NewestKept(before, after) && DistinctAges(before)
    ensures after == Pruned(before)
  {
    forall n <- before
      ensures n in after <==> n in Pruned(before)
    {
      if n.Backup? {
        NewerCount(before, after, n);
      }
    }
  }

  lemma {:induction false} NewerCount(before: Files, after: Files, n: FileName)
    requires NewestKept(before, after) && DistinctAges(before) && n in before && n.Backup?
    ensures n in after <==> |Newer(before, n)| < MAX_BACKUPS
  {
    var kept, newer := BackupNames(after), Newer(before, n);
    if n in after {
      assert newer <= kept && n in kept && n !in newer;
      SubsetIsSmaller(newer, kept);
    } else {
      assert kept <= newer;
      SubsetIsSmaller(kept, newer);
      var all := BackupNames(before);
      assert kept <= all && n in all && n !in kept;
      SubsetIsSmaller(kept, all);
    }
  }

  // ---------------------------------------------------------------------------
  // Saving
  // ---------------------------------------------------------------------------

  /** What can go wrong in one save: the current file cannot be read, only so many
      characters of the backup or of the temporary file can be written, the
      directory cannot be listed, some files cannot be removed, and so on. */
  datatype Faults = Faults(
    read: bool, backupRoom: nat, list: bool, stuck: set<FileName>,
    create: bool, tempRoom: nat, sync: bool, rename: bool)

  /** Every backup is older than `now`, and no two are of one age. */
  ghost predicate Earlier(files: Files, now: int) {
    DistinctAges(files) && forall n <- files :: n.Backup? ==> files[n].mtime < now
  }

  function WithBackup(files: Files, now: int): Files {
    if ConfigToml in files then files[Backup(now) := File(files[ConfigToml].content, now, false)] else files
  }

  lemma {:induction false} BackupIsNewest(files: Files, now: int)
    requires Earlier(files, now)
    ensures DistinctAges(WithBackup(files, now))
  {
    var more := WithBackup(files, now);
    forall m <- more, n <- more | m.Backup? && n.Backup? && m != n
      ensures more[m].mtime != more[n].mtime
    {
      if m == Backup(now) && ConfigToml in files {
        assert n in files;
      }
      if n == Backup(now) && ConfigToml in files {
        assert m in files;
      }
    }
  }

  /** One save as a run sees it: whether the current file could be read to be backed
      up, and whether the new one was put in its place. */
  datatype Save = Save(now: int, content: string, readable: bool, lands: bool)

  /** What a save makes of the directory. */
  function AfterSave(files: Files, s: Save, pid: nat): Files {
    var backedUp := if s.readable && ConfigToml in files then Pruned(WithBackup(files, s.now)) else files;
    var base := backedUp - {Temp(pid)};
    if s.lands then base[ConfigToml := File(s.content, s.now, true)] else base
  }

  /** Every state between `from` and the end shows the whole old configuration or
      the whole new one, on disk. */
  ghost predicate Whole(met: seq<Files>, from: nat, was: Option<File>, new_: File) {
    forall i :: from <= i < |met| ==> ConfigOf(met[i]) == was || ConfigOf(met[i]) == Some(new_)
  }

  ghost predicate Untouched(met: seq<Files>, from: nat, was: Option<File>) {
    forall i :: from <= i < |met| ==> ConfigOf(met[i]) == was
  }

  ghost predicate SameExcept(a: Files, b: Files, names: set<FileName>) {
    forall n :: n !in names ==> (n in a <==> n in b) && (n in a ==> a[n] == b[n])
  }

  class Directory {
    const pid: nat
    var files: Files
    /** The state after every system call: where a crash could have stopped it, and
        what a concurrent reader could have seen. */
    ghost var met: seq<Files>

    constructor (pid: nat, files: Files)
      ensures this.pid == pid && this.files == files && met == [files]
    {
      this.pid, this.files, met := pid, files, [files];
    }

    method Put(name: FileName, file: File)
      modifies this
      ensures files == old(files)[name := file] && met == old(met) + [files]
    {
      files := files[name := file];
      met := met + [files];
    }

    method Remove(name: FileName, stuck: set<FileName>)
      modifies this
      ensures files == if name in stuck then old(files) else old(files) - {name}
      ensures met == old(met) + [files]
    {
      if name !in stuck {
        files := files - {name};
      }
      met := met + [files];
    }

    /** Truncates the file and writes it character by character, as far as there is
        room. */
    method WriteFile(name: FileName, content: string, now: int, room: nat) returns (ok: bool)
      requires name != ConfigToml
      modifies this
      ensures ok <==> |content| <= room
      ensures ok ==> files == old(files)[name := File(content, now, false)]
      ensures name in files && SameExcept(files, old(files), {name})
      ensures old(met) <= met && Untouched(met, |old(met)|, ConfigOf(old(files)))
    {
      Put(name, File("", now, false));
      for i := 0 to |content|
        invariant i <= room
        invariant files == old(files)[name := File(content[..i], now, false)]
        invariant old(met) <= met && Untouched(met, |old(met)|, ConfigOf(old(files)))
      {
        if i == room {
          return false;
        }
        Put(name, File(content[..i + 1], now, false));
      }
      assert content[..|content|] == content;
      return true;
    }

    method ListBackups() returns (backups: Aged)
      ensures ListsBackups(files, BackupNames(files), backups)
    {
      var pending := files.Keys;
      ghost var done: set<FileName> := {};
      backups := [];
      while pending != {}
        invariant pending <= files.Keys && done == BackupNames(files) - pending
        invariant ListsBackups(files, done, backups)
      {
        var name :| name in pending;
        pending := pending - {name};
        if name.Backup? {
          ListedOneMore(files, done, backups, name);
          backups := backups + [(files[name].mtime, name)];
          done := done + {name};
        }
      }
      assert done == BackupNames(files);
    }

    /** Keeps the newest five backups, as far as the others can be removed. */
    method PruneBackups(list: bool, stuck: set<FileName>)
      modifies this
      ensures OnlyBackupsGone(old(files), files)
      ensures list && stuck == {} ==> NewestKept(old(files), files)
      ensures old(met) <= met && Untouched(met, |old(met)|, ConfigOf(old(files)))
    {
      if !list {
        return;
      }
      var backups := ListBackups();
      if |backups| <= MAX_BACKUPS {
        return;
      }
      SortingKeepsTheListing(files, BackupNames(files), backups);
      backups := SortedByAge(backups);
      RemoveStale(backups, stuck);
      TailIsOldest(old(files), backups);
    }

    method RemoveStale(backups: Aged, stuck: set<FileName>)
      requires |backups| > MAX_BACKUPS && ListsBackups(files, BackupNames(files), backups)
      modifies this
      ensures OnlyBackupsGone(old(files), files)
      ensures stuck == {} ==> files == old(files) - NamesOf(backups[MAX_BACKUPS..])
      ensures old(met) <= met && Untouched(met, |old(met)|, ConfigOf(old(files)))
    {
      ghost var gone: set<FileName> := {};
      for i := MAX_BACKUPS to |backups|
        invariant gone == NamesOf(backups[MAX_BACKUPS..i]) && gone <= BackupNames(old(files))
        invariant files == old(files) - (gone - stuck)
        invariant old(met) <= met && Untouched(met, |old(met)|, ConfigOf(old(files)))
      {
        assert backups[MAX_BACKUPS..i + 1] == backups[MAX_BACKUPS..i] + [backups[i]];
        assert backups[i] in backups;
        assert backups[i].1 in BackupNames(old(files));
        Remove(backups[i].1, stuck);
        gone := gone + {backups[i].1};
      }
      assert backups[MAX_BACKUPS..|backups|] == backups[MAX_BACKUPS..];
      assert stuck == {} ==> gone - stuck == gone;
    }

    /** Writes beside the target, flushes, and moves over it. */
    method WriteAtomic(content: string, now: int, faults: Faults) returns (ok: bool)
      modifies this
      ensures ok ==> files == (old(files) - {Temp(pid)})[ConfigToml := File(content, now, true)]
      ensures ok <==> faults.create && |content| <= faults.tempRoom && faults.sync && faults.rename
      ensures SameExcept(files, old(files), if ok then {ConfigToml, Temp(pid)} else {Temp(pid)})
      ensures old(met) <= met && Whole(met, |old(met)|, ConfigOf(old(files)), File(content, now, true))
    {
      var tmp := Temp(pid);
      if !faults.create {
        return false;
      }
      var written := WriteFile(tmp, content, now, faults.tempRoom);
      if !written || !faults.sync {
        Remove(tmp, faults.stuck);
        return false;
      }
      Put(tmp, File(content, now, true));
      if !faults.rename {
        Remove(tmp, faults.stuck);
        return false;
      }
      files := (files - {tmp})[ConfigToml := files[tmp]];
      met := met + [files];
      return true;
    }

    /** Best effort: what fails here does not stop the save. */
    method BackUp(now: int, faults: Faults)
      modifies this
      ensures ConfigOf(files) == ConfigOf(old(files))
      ensures old(met) <= met && Untouched(met, |old(met)|, ConfigOf(old(files)))
      ensures forall n: FileName :: !n.Backup? ==> (n in files <==> n in old(files)) && (n in files ==> files[n] == old(files)[n])
      ensures ConfigToml !in old(files) || !faults.read ==> files == old(files)
      ensures
        && faults.read && faults.list && faults.stuck == {} && Earlier(old(files), now)
        && ConfigToml in old(files) && |old(files)[ConfigToml].content| <= faults.backupRoom
        ==> files == Pruned(WithBackup(old(files), now))
    {
      if ConfigToml !in files || !faults.read {
        return;
      }
      var backedUp := WriteFile(Backup(now), files[ConfigToml].content, now, faults.backupRoom);
      if !backedUp {
        return;
      }
      ghost var before := files;
      assert before == WithBackup(old(files), now);
      PruneBackups(faults.list, faults.stuck);
      if faults.list && faults.stuck == {} && Earlier(old(files), now) {
        BackupIsNewest(old(files), now);
        NewestKeptIsPruned(before, files);
      }
    }

    /** One save. At every step of it, whatever fails, `config.toml` holds
        all of the old configuration or all of the new one, flushed; the backup and the pruning never
        stop the save; and nothing but backups and the temporary file is touched. */
    method Write(content: string, now: int, faults: Faults) returns (ok: bool)
      modifies this
      ensures ok <==> faults.create && |content| <= faults.tempRoom && faults.sync && faults.rename
      ensures ConfigOf(files) == if ok then Some(File(content, now, true)) else ConfigOf(old(files))
      ensures old(met) <= met && Whole(met, |old(met)|, ConfigOf(old(files)), File(content, now, true))
      ensures forall n: FileName :: n.Other? ==> (n in files <==> n in old(files)) && (n in files ==> files[n] == old(files)[n])
      ensures
        && faults.list && faults.stuck == {} && Earlier(old(files), now)
        && (ConfigToml in old(files) ==> |old(files)[ConfigToml].content| <= faults.backupRoom)
        ==> files - {Temp(pid)} == AfterSave(old(files), Save(now, content, faults.read, ok), pid)
    {
      BackUp(now, faults);
      ok := WriteAtomic(content, now, faults);
    }
  }

  // ---------------------------------------------------------------------------
  // Runs of saves
  // ---------------------------------------------------------------------------

  datatype Entry = Entry(stamp: int, content: string)

  function AfterSaves(files: Files, saves: seq<Save>, pid: nat): Files
    decreases |saves|
  {
    if saves == [] then files else AfterSaves(AfterSave(files, saves[0], pid), saves[1..], pid)
  }

  /** What one save backs up: what the current file is, if it can be read. */
  function Logged(config: Option<string>, s: Save): seq<Entry> {
    if s.readable && config.Some? then [Entry(s.now, config.value)] else []
  }

  function ContentAfter(config: Option<string>, s: Save): Option<string> {
    if s.lands then Some(s.content) else config
  }

  /** What a run of saves backs up, and when. */
  function BackedUp(config: Option<string>, saves: seq<Save>): seq<Entry>
    decreases |saves|
  {
    if saves == [] then [] else Logged(config, saves[0]) + BackedUp(ContentAfter(config, saves[0]), saves[1..])
  }

  function Content(files: Files): Option<string> {
    if ConfigToml in files then Some(files[ConfigToml].content) else None
  }

  function Stamps(log: seq<Entry>): set<FileName> {
    set e <- log :: Backup(e.stamp)
  }

  ghost predicate Increasing(log: seq<Entry>) {
    forall i, j :: 0 <= i < j < |log| ==> log[i].stamp < log[j].stamp
  }

  predicate HeldAt(files: Files, e: Entry) {
    Backup(e.stamp) in files && files[Backup(e.stamp)] == File(e.content, e.stamp, false)
  }

  ghost predicate Mentioned(log: seq<Entry>, k: nat, n: FileName) {
    exists i :: k <= i < |log| && n == Backup(log[i].stamp)
  }

  /** The backups in the directory are exactly the entries of `log` from `k` on. */
  ghost predicate HoldsFrom(files: Files, log: seq<Entry>, k: nat) {
    && (forall i :: k <= i < |log| ==> HeldAt(files, log[i]))
    && (forall n <- BackupNames(files) :: Mentioned(log, k, n))
  }

  function FirstOfLatest(log: seq<Entry>): nat {
    if |log| <= MAX_BACKUPS then 0 else |log| - MAX_BACKUPS
  }

  /** The backups in the directory are exactly the last five entries of `log`. */
  ghost predicate HoldsLatest(files: Files, log: seq<Entry>) {
    HoldsFrom(files, log, FirstOfLatest(log))
  }

  lemma {:induction false} AsManyStamps(log: seq<Entry>)
    requires Increasing(log)
    ensures |Stamps(log)| == |log|
  {
    if log != [] {
      var n := |log| - 1;
      var init := log[..n];
      assert log == init + [log[n]];
      AsManyStamps(init);
      assert Stamps(log) == Stamps(init) + {Backup(log[n].stamp)};
      assert forall e <- init :: e.stamp < log[n].stamp;
    }
  }

  lemma {:induction false} NewerIsLater(files: Files, log: seq<Entry>, k: nat, i: nat, n: FileName)
    requires HoldsFrom(files, log, k) && Increasing(log) && k <= i < |log|
    ensures HeldAt(files, log[i])
    ensures n in Newer(files, Backup(log[i].stamp)) <==> Mentioned(log, i + 1, n)
  {
    assert HeldAt(files, log[i]);
    if n in Newer(files, Backup(log[i].stamp)) {
      assert n in BackupNames(files);
      var j :| k <= j < |log| && n == Backup(log[j].stamp);
      assert HeldAt(files, log[j]);
      assert j >= i + 1;
    }
    if Mentioned(log, i + 1, n) {
      var j :| i + 1 <= j < |log| && n == Backup(log[j].stamp);
      assert HeldAt(files, log[j]);
    }
  }

  lemma {:induction false} NewerAreLater(files: Files, log: seq<Entry>, k: nat, i: nat)
    requires HoldsFrom(files, log, k) && Increasing(log) && k <= i < |log|
    ensures HeldAt(files, log[i]) && |Newer(files, Backup(log[i].stamp))| == |log| - 1 - i
  {
    assert HeldAt(files, log[i]);
    var later := log[i + 1..];
    assert Increasing(later);
    AsManyStamps(later);
    forall n
      ensures n in Newer(files, Backup(log[i].stamp)) <==> n in Stamps(later)
    {
      NewerIsLater(files, log, k, i, n);
      if Mentioned(log, i + 1, n) {
        var j :| i + 1 <= j < |log| && n == Backup(log[j].stamp);
        assert later[j - i - 1] == log[j];
      }
    }
    assert Newer(files, Backup(log[i].stamp)) == Stamps(later);
  }

  lemma {:induction false} PrunedEntry(files: Files, log: seq<Entry>, k: nat, i: nat)
    requires HoldsFrom(files, log, k) && Increasing(log) && k <= i < |log|
    ensures i >= FirstOfLatest(log) ==> HeldAt(Pruned(files), log[i])
    ensures i < FirstOfLatest(log) ==> Backup(log[i].stamp) !in Pruned(files)
  {
    NewerAreLater(files, log, k, i);
  }

  lemma {:induction false} PruningKeepsTheLatest(files: Files, log: seq<Entry>, k: nat)
    requires HoldsFrom(files, log, k) && Increasing(log) && k <= FirstOfLatest(log)
    ensures HoldsLatest(Pruned(files), log)
  {
    var first := FirstOfLatest(log);
    forall i | first <= i < |log|
      ensures HeldAt(Pruned(files), log[i])
    {
      PrunedEntry(files, log, k, i);
    }
    forall n <- BackupNames(Pruned(files))
      ensures Mentioned(log, first, n)
    {
      assert n in BackupNames(files);
      var i :| k <= i < |log| && n == Backup(log[i].stamp);
      PrunedEntry(files, log, k, i);
    }
  }

  lemma {:induction false} BackupIsHeld(files: Files, log: seq<Entry>, k: nat, e: Entry)
    requires HoldsFrom(files, log, k) && k <= |log| && Content(files) == Some(e.content) && Increasing(log + [e])
    ensures HoldsFrom(WithBackup(files, e.stamp), log + [e], k)
  {
    var longer, more := log + [e], WithBackup(files, e.stamp);
    forall i | k <= i < |longer|
      ensures HeldAt(more, longer[i])
    {
      if i < |log| {
        assert HeldAt(files, log[i]);
        assert longer[i].stamp < longer[|log|].stamp;
      }
    }
    forall n <- BackupNames(more)
      ensures Mentioned(longer, k, n)
    {
      if n in BackupNames(files) {
        var i :| k <= i < |log| && n == Backup(log[i].stamp);
        assert longer[i] == log[i];
      } else {
        assert n == Backup(longer[|log|].stamp);
      }
    }
  }

  lemma {:induction false} OneSaveKept(files: Files, log: seq<Entry>, s: Save, pid: nat)
    requires HoldsLatest(files, log)
    requires Increasing(log + Logged(Content(files), s))
    ensures HoldsLatest(AfterSave(files, s, pid), log + Logged(Content(files), s))
    ensures Content(AfterSave(files, s, pid)) == ContentAfter(Content(files), s)
  {
    if s.readable && ConfigToml in files {
      var e := Entry(s.now, files[ConfigToml].content);
      BackupIsHeld(files, log, FirstOfLatest(log), e);
      PruningKeepsTheLatest(WithBackup(files, s.now), log + [e], FirstOfLatest(log));
      OthersDoNotMatter(Pruned(WithBackup(files, s.now)), s, pid, log + [e]);
    } else {
      assert log + [] == log;
      OthersDoNotMatter(files, s, pid, log);
    }
  }

  lemma {:induction false} OthersDoNotMatter(files: Files, s: Save, pid: nat, log: seq<Entry>)
    requires HoldsLatest(files, log)
    ensures
      var base := files - {Temp(pid)};
      HoldsLatest(if s.lands then base[ConfigToml := File(s.content, s.now, true)] else base, log)
  {
    var base := files - {Temp(pid)};
    var after := if s.lands then base[ConfigToml := File(s.content, s.now, true)] else base;
    assert BackupNames(after) == BackupNames(files);
    forall i | FirstOfLatest(log) <= i < |log|
      ensures HeldAt(after, log[i])
    {
      assert HeldAt(files, log[i]);
    }
  }

  /** The bounded history: over any run of saves at increasing times, some failing
      to land and some finding nothing to back up, the backups are exactly what the
      last five saves that backed anything up replaced. */
  lemma {:induction false} HistoryIsBounded(files: Files, log: seq<Entry>, saves: seq<Save>, pid: nat)
    requires HoldsLatest(files, log) && Increasing(log + BackedUp(Content(files), saves))
    ensures HoldsLatest(AfterSaves(files, saves, pid), log + BackedUp(Content(files), saves))
    decreases |saves|
  {
    if saves == [] {
      assert log + [] == log;
    } else {
      var s, rest := saves[0], saves[1..];
      var more := log + Logged(Content(files), s);
      var later := BackedUp(ContentAfter(Content(files), s), rest);
      assert log + BackedUp(Content(files), saves) == more + later;
      PrefixIncreases(more, later);
      OneSaveKept(files, log, s, pid);
      HistoryIsBounded(AfterSave(files, s, pid), more, rest, pid);
    }
  }

  lemma {:induction false} PrefixIncreases(a: seq<Entry>, b: seq<Entry>)
    requires Increasing(a + b)
    ensures Increasing(a)
  {
    assert forall i :: 0 <= i < |a| ==> a[i] == (a + b)[i];
  }

  ghost predicate TimesIncrease(saves: seq<Save>) {
    forall i, j :: 0 <= i < j < |saves| ==> saves[i].now < saves[j].now
  }

  lemma {:induction false} BackedUpInOrder(config: Option<string>, saves: seq<Save>, before: int)
    requires TimesIncrease(saves) && (forall s <- saves :: before < s.now)
    ensures Increasing(BackedUp(config, saves))
    ensures forall e <- BackedUp(config, saves) :: before < e.stamp
    decreases |saves|
  {
    if saves != [] {
      var s := saves[0];
      forall t <- saves[1..]
        ensures s.now < t.now
      {
        var i :| 0 <= i < |saves[1..]| && saves[1..][i] == t;
        assert saves[i + 1] == t;
      }
      BackedUpInOrder(ContentAfter(config, s), saves[1..], s.now);
      assert s in saves;
    }
  }

  /** Along such a run the backups stay older than the next save, and of distinct
      ages, as `Write` wants them for its pruning to be determined. */
  lemma {:induction false} HeldAreEarlier(files: Files, log: seq<Entry>, now: int)
    requires HoldsLatest(files, log) && Increasing(log) && (forall e <- log :: e.stamp < now)
    ensures Earlier(files, now)
  {
    var k := FirstOfLatest(log);
    forall m <- files, n <- files | m.Backup? && n.Backup? && m != n
      ensures files[m].mtime != files[n].mtime
    {
      assert m in BackupNames(files) && n in BackupNames(files);
      var i :| k <= i < |log| && m == Backup(log[i].stamp);
      var j :| k <= j < |log| && n == Backup(log[j].stamp);
      assert HeldAt(files, log[i]) && HeldAt(files, log[j]);
    }
    forall n <- files | n.Backup?
      ensures files[n].mtime < now
    {
      assert n in BackupNames(files);
      var i :| k <= i < |log| && n == Backup(log[i].stamp);
      assert HeldAt(files, log[i]);
    }
  }

  /** The same, from a directory with no backups in it. */
  lemma {:induction false} BackupsAreTheLastFive(files: Files, saves: seq<Save>, pid: nat)
    requires BackupNames(files) == {} && TimesIncrease(saves)
    ensures HoldsLatest(AfterSaves(files, saves, pid), BackedUp(Content(files), saves))
  {
    if saves != [] {
      forall s <- saves
        ensures saves[0].now - 1 < s.now
      {
        var i :| 0 <= i < |saves| && saves[i] == s;
      }
      BackedUpInOrder(Content(files), saves, saves[0].now - 1);
    }
    assert [] + BackedUp(Content(files), saves) == BackedUp(Content(files), saves);
    HistoryIsBounded(files, [], saves, pid);
  }
}
