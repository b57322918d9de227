/** The cache in front of the state file (internal/state/local.go), with other processes writing the file at
    any moment, also between the stat and the read of one Load. */
module StateCache {
  import opened Wrappers
  import opened StateFile

  /** A file and its modification time, which a rename takes along. */
  datatype Stamped = Stamped(file: File, mtime: int)

  /** modTime None is the zero time. */
  datatype State = State(main: Option<Stamped>, bak: Option<Stamped>, cached: Slice, index: map<string, Entry>,
                         modTime: Option<int>, hits: nat, misses: nat)

  /** What another process does to the main file. */
  datatype Change = Write(file: File, mtime: int) | Remove

  function Changed(main: Option<Stamped>, c: Change): Option<Stamped> {
    match c
    case Write(file, mtime) => Some(Stamped(file, mtime))
    case Remove => None
  }

  function After(main: Option<Stamped>, cs: seq<Change>): Option<Stamped>
    decreases cs
  {
    if cs == [] then main else After(Changed(main, cs[0]), cs[1..])
  }

  // ---- The index ----

  /** FQN to entry; of entries with one FQN the last stays. */
  function IndexOf(entries: seq<Entry>): map<string, Entry> {
    if entries == [] then map[]
    else IndexOf(entries[..|entries| - 1])[entries[|entries| - 1].fqn := entries[|entries| - 1]]
  }

  function Index(s: Slice): map<string, Entry> {
    if s.None? then map[] else IndexOf(s.value)
  }

  function Lookup(index: map<string, Entry>, fqn: string): Option<Entry> {
    if fqn in index then Some(index[fqn]) else None
  }

  /** The first entry with that FQN. */
  function Search(entries: seq<Entry>, fqn: string): Option<Entry> {
    if entries == [] then None else if entries[0].fqn == fqn then Some(entries[0]) else Search(entries[1..], fqn)
  }

  function SearchSlice(s: Slice, fqn: string): Option<Entry> {
    if s.None? then None else Search(s.value, fqn)
  }

  ghost predicate DistinctFQNs(entries: seq<Entry>) {
    forall i, j :: 0 <= i < j < |entries| ==> entries[i].fqn != entries[j].fqn
  }

  lemma {:induction false} SearchAppend(entries: seq<Entry>, e: Entry, fqn: string)
    ensures Search(entries + [e], fqn) ==
            if Search(entries, fqn).Some? then Search(entries, fqn) else if e.fqn == fqn then Some(e) else None
  {
    if entries == [] {
      assert entries + [e] == [e];
      assert Search([e], fqn) == if e.fqn == fqn then Some(e) else Search([], fqn);
    } else {
      SearchAppend(entries[1..], e, fqn);
      assert (entries + [e])[1..] == entries[1..] + [e];
    }
  }

  lemma {:induction false} SearchFinds(entries: seq<Entry>, fqn: string)
    ensures Search(entries, fqn).Some? <==> exists i :: 0 <= i < |entries| && entries[i].fqn == fqn
  {
    if entries != [] {
      SearchFinds(entries[1..], fqn);
      if i :| 0 <= i < |entries| && entries[i].fqn == fqn {
        assert i > 0 ==> entries[1..][i - 1].fqn == fqn;
      }
      if i :| 0 <= i < |entries[1..]| && entries[1..][i].fqn == fqn {
        assert entries[i + 1].fqn == fqn;
      }
    }
  }

  /** With distinct names the index finds what a search finds. */
  lemma {:induction false} IndexAgrees(entries: seq<Entry>, fqn: string)
    requires DistinctFQNs(entries)
    ensures Lookup(IndexOf(entries), fqn) == Search(entries, fqn)
  {
    if entries != [] {
      var n := |entries| - 1;
      var front, last := entries[..n], entries[n];
      IndexAgrees(front, fqn);
      SearchAppend(front, last, fqn);
      SearchFinds(front, fqn);
      assert entries == front + [last];
    }
  }

  // ---- Load, Get and Save as functions on the state ----

  function Invalidated(s: State): State {
    s.(cached := None, index := map[], modTime := None)
  }

  /** The main file rewritten from the backup, at the given time unless the write fails. */
  function Restored(s: State, file: File, restore: Option<int>): State {
    match restore case None => s case Some(t) => s.(main := Some(Stamped(file, t)))
  }

  predicate IsHit(s: State) {
    s.main.Some? && s.cached.Some? && s.modTime == Some(s.main.value.mtime)
  }

  function FromBackup(s: State, restore: Option<int>, absent: Result<Slice>): (State, Result<Slice>) {
    match s.bak
    case None => (s, absent)
    case Some(Stamped(Bad, _)) => (s, Err("corrupted"))
    case Some(Stamped(Good(e), _)) => (Restored(s, Good(e), restore), Ok(e))
  }

  function LoadStep(s: State, cs: seq<Change>, restore: Option<int>): (State, Result<Slice>) {
    var after := s.(main := After(s.main, cs));
    if s.main.None? then FromBackup(Invalidated(after), restore, Ok(None))
    else if IsHit(s) then (after, Ok(s.cached))
    else match after.main
         case None => (after, Err("no such file"))
         case Some(Stamped(Bad, _)) => FromBackup(after, restore, Err("corrupted"))
         case Some(Stamped(Good(e), _)) =>
           (after.(cached := e, index := Index(e), modTime := Some(s.main.value.mtime)), Ok(e))
  }

  function GetStep(s: State, fqn: string, cs: seq<Change>, restore: Option<int>): (State, Result<Option<Entry>>) {
    var (s1, r) := LoadStep(s, cs, restore);
    match r
    case Err(e) => (s1, Err(e))
    case Ok(_) =>
      var found := Lookup(s1.index, fqn);
      (if found.Some? then s1.(hits := s1.hits + 1) else s1.(misses := s1.misses + 1), Ok(found))
  }

  /** A save without errors. */
  function SaveStep(s: State, e: Slice, t: int): State {
    Invalidated(s.(bak := if s.main.Some? then s.main else s.bak, main := Some(Stamped(Good(e), t))))
  }

  /** How a save that returns an error leaves the files: as they were, with the backup renamed back, or with the
      main file gone because that rename failed too. */
  datatype SaveFailure = Untouched | RenamedBack | LeftAside

  /** A save with an error does not invalidate the cache. Renaming back takes whatever backup there is. */
  function FailStep(s: State, how: SaveFailure): State {
    match how
    case Untouched => s
    case RenamedBack =>
      if s.main.None? && s.bak.None? then s
      else s.(main := if s.main.Some? then s.main else s.bak, bak := None)
    case LeftAside => if s.main.None? then s else s.(main := None, bak := s.main)
  }

  // ---- Every write gets a fresh time ----

  /** The cache was filled from f if it has f's time. */
  ghost predicate Agrees(s: State, f: Option<Stamped>) {
    s.cached.Some? && f.Some? && s.modTime == Some(f.value.mtime) ==> f.value.file == Good(s.cached)
  }

  /** used holds every time a file ever had. */
  ghost predicate Coherent(s: State, used: set<int>) {
    && (s.main.Some? ==> s.main.value.mtime in used)
    && (s.bak.Some? ==> s.bak.value.mtime in used)
    && (s.main.Some? && s.bak.Some? ==> s.main.value.mtime != s.bak.value.mtime)
    && (s.cached.Some? ==> s.modTime.Some? && s.modTime.value in used)
    && s.index == Index(s.cached)
    && Agrees(s, s.main) && Agrees(s, s.bak)
  }

  ghost predicate FreshChanges(cs: seq<Change>, used: set<int>)
    decreases cs
  {
    cs == [] || match cs[0]
                case Write(_, t) => t !in used && FreshChanges(cs[1..], used + {t})
                case Remove => FreshChanges(cs[1..], used)
  }

  ghost function UsedBy(cs: seq<Change>): set<int> {
    set i | 0 <= i < |cs| && cs[i].Write? :: cs[i].mtime
  }

  /** The main file is the one there was, or has a time never used before. */
  lemma {:induction false} AfterFresh(main: Option<Stamped>, cs: seq<Change>, used: set<int>)
    requires FreshChanges(cs, used)
    ensures var m := After(main, cs); m == main || m.None? || (m.value.mtime !in used && m.value.mtime in UsedBy(cs))
    decreases cs
  {
    if cs != [] {
      var rest := cs[1..];
      var m := Changed(main, cs[0]);
      assert forall i :: 0 <= i < |rest| ==> rest[i] == cs[i + 1];
      match cs[0] {
        case Write(_, t) => AfterFresh(m, rest, used + {t});
        case Remove => AfterFresh(m, rest, used);
      }
      var r := After(m, rest);
      if r.Some? && r.value.mtime in UsedBy(rest) {
        var i :| 0 <= i < |rest| && rest[i].Write? && rest[i].mtime == r.value.mtime;
        assert cs[i + 1].Write? && cs[i + 1].mtime == r.value.mtime;
      } else if r == m && cs[0].Write? {
        assert cs[0].mtime in UsedBy(cs);
      }
    }
  }

  ghost function WithTime(used: set<int>, t: Option<int>): set<int> {
    if t.Some? then used + {t.value} else used
  }

  lemma ChangeKeeps(s: State, cs: seq<Change>, used: set<int>)
    requires Coherent(s, used) && FreshChanges(cs, used)
    ensures Coherent(s.(main := After(s.main, cs)), used + UsedBy(cs))
  {
    hide FreshChanges, After, UsedBy, Index;
    AfterFresh(s.main, cs, used);
  }

  lemma LoadKeepsCoherent(s: State, cs: seq<Change>, restore: Option<int>, used: set<int>)
    requires Coherent(s, used) && FreshChanges(cs, used)
    requires restore.Some? ==> restore.value !in used + UsedBy(cs)
    ensures Coherent(LoadStep(s, cs, restore).0, WithTime(used + UsedBy(cs), restore))
  {
    hide FreshChanges, After, UsedBy, Index, IndexOf;
    AfterFresh(s.main, cs, used);
    ChangeKeeps(s, cs, used);
    NoIndex();
  }

  lemma NoIndex()
    ensures Index(None) == map[]
  {
  }

  /** Even if the file is replaced after the stat, a hit returns what was on disk at the stat; without a hit the
      file as it is when read is returned. */
  lemma LoadReturnsDisk(s: State, cs: seq<Change>, restore: Option<int>, used: set<int>)
    requires Coherent(s, used) && s.main.Some?
    ensures var r := LoadStep(s, cs, restore).1;
            if IsHit(s) then s.main.value.file == Good(s.cached) && r == Ok(s.cached)
            else var m := After(s.main, cs); m.Some? && m.value.file.Good? ==> r == Ok(m.value.file.entries)
  {
  }

  /** As long as the main file stays readable, Get finds what a search of the loaded entries finds. */
  lemma GetIsSearch(s: State, fqn: string, cs: seq<Change>, restore: Option<int>, used: set<int>)
    requires Coherent(s, used) && s.main.Some?
    requires IsHit(s) || (After(s.main, cs).Some? && After(s.main, cs).value.file.Good?)
    requires var r := LoadStep(s, cs, restore).1; r.Ok? && r.value.Some? ==> DistinctFQNs(r.value.value)
    ensures var r := LoadStep(s, cs, restore).1;
            r.Ok? && GetStep(s, fqn, cs, restore).1 == Ok(SearchSlice(r.value, fqn))
  {
    hide After, IndexOf, Search;
    var (s1, r) := LoadStep(s, cs, restore);
    assert r.Ok? && s1.index == Index(r.value);
    if r.value.Some? {
      IndexAgrees(r.value.value, fqn);
    }
  }

  // ---- The same files as those of Save and Load under crashes ----

  ghost function FileOf(f: Option<Stamped>): Option<File> {
    if f.Some? then Some(f.value.file) else None
  }

  ghost function DiskOf(s: State): Disk {
    Disk(FileOf(s.main), FileOf(s.bak), None)
  }

  ghost function LastDisk(d: Disk, e: Slice, f: Faults): Disk {
    SaveTrace(d, e, f)[|SaveTrace(d, e, f)| - 1]
  }

  /** Saving leaves the files that the system calls of a save leave, and takes the times along. */
  lemma SaveMatches(s: State, e: Slice, t: int)
    ensures DiskOf(SaveStep(s, e, t)) == LastDisk(DiskOf(s), e, NO_FAULTS)
    ensures SaveStep(s, e, t).main.value.mtime == t && (s.main.Some? ==> SaveStep(s, e, t).bak == s.main)
    ensures DiskOf(FailStep(s, Untouched)) == LastDisk(DiskOf(s), e, NO_FAULTS.(sync := true))
    ensures DiskOf(FailStep(s, RenamedBack)) == LastDisk(DiskOf(s), e, NO_FAULTS.(commit := true))
    ensures DiskOf(FailStep(s, LeftAside)) == LastDisk(DiskOf(s), e, NO_FAULTS.(commit := true, restore := true))
  {
  }

  /** A load that the cache does not answer, with nobody else at work, returns what the files hold and leaves them as a
      load does. */
  lemma LoadMatches(s: State, restore: Option<int>)
    requires !IsHit(s)
    ensures var (t, r) := LoadStep(s, [], restore);
            && (Read(DiskOf(s)) == Corrupted <==> r.Err?)
            && (r.Ok? ==> Read(DiskOf(s)) == Entries(r.value))
            && DiskOf(t) == AfterLoad(DiskOf(s), if restore.Some? then Full else Nothing)
            && t.hits == s.hits && t.misses == s.misses
  {
  }

  /** A load that reads the file remembers the time it saw before reading, so a write in between is noticed by the next
      load. */
  lemma RacedLoadIsRepeated(s: State, cs: seq<Change>, restore: Option<int>)
    requires s.main.Some? && !IsHit(s)
    requires After(s.main, cs).Some? && After(s.main, cs).value.file.Good?
    requires After(s.main, cs).value.mtime != s.main.value.mtime
    ensures var t := LoadStep(s, cs, restore).0; t.cached == After(s.main, cs).value.file.entries && !IsHit(t)
  {
    hide After, Index;
  }

  lemma LoadCountsNothing(s: State, cs: seq<Change>, restore: Option<int>)
    ensures LoadStep(s, cs, restore).0.hits == s.hits && LoadStep(s, cs, restore).0.misses == s.misses
  {
    hide After, Index;
  }

  // ---- Whole runs ----

  datatype Op =
    | LoadOp(cs: seq<Change>, restore: Option<int>)
    | GetOp(fqn: string, cs: seq<Change>, restore: Option<int>)
    | SaveOp(entries: Slice, mtime: int)
    | FailedSaveOp(how: SaveFailure)
    | OutsideOp(cs: seq<Change>)

  function Do(s: State, op: Op): State {
    match op
    case LoadOp(cs, restore) => LoadStep(s, cs, restore).0
    case GetOp(fqn, cs, restore) => GetStep(s, fqn, cs, restore).0
    case SaveOp(e, t) => SaveStep(s, e, t)
    case FailedSaveOp(how) => FailStep(s, how)
    case OutsideOp(cs) => s.(main := After(s.main, cs))
  }

  function Run(s: State, ops: seq<Op>): State
    decreases ops
  {
    if ops == [] then s else Run(Do(s, ops[0]), ops[1..])
  }

  ghost predicate FreshOp(op: Op, used: set<int>) {
    match op
    case LoadOp(cs, restore) => FreshChanges(cs, used) && (restore.Some? ==> restore.value !in used + UsedBy(cs))
    case GetOp(_, cs, restore) => FreshChanges(cs, used) && (restore.Some? ==> restore.value !in used + UsedBy(cs))
    case SaveOp(_, t) => t !in used
    case FailedSaveOp(_) => true
    case OutsideOp(cs) => FreshChanges(cs, used)
  }

  ghost function Used(op: Op, used: set<int>): set<int> {
    match op
    case LoadOp(cs, restore) => WithTime(used + UsedBy(cs), restore)
    case GetOp(_, cs, restore) => WithTime(used + UsedBy(cs), restore)
    case SaveOp(_, t) => used + {t}
    case FailedSaveOp(_) => used
    case OutsideOp(cs) => used + UsedBy(cs)
  }

  ghost predicate FreshOps(ops: seq<Op>, used: set<int>)
    decreases ops
  {
    ops == [] || (FreshOp(ops[0], used) && FreshOps(ops[1..], Used(ops[0], used)))
  }

  lemma DoKeepsCoherent(s: State, op: Op, used: set<int>)
    requires Coherent(s, used) && FreshOp(op, used)
    ensures Coherent(Do(s, op), Used(op, used))
  {
    hide FreshChanges, After, UsedBy, Index, LoadStep;
    match op
    case LoadOp(cs, restore) => LoadKeepsCoherent(s, cs, restore, used);
    case GetOp(fqn, cs, restore) => LoadKeepsCoherent(s, cs, restore, used);
    case SaveOp(e, t) => NoIndex();
    case FailedSaveOp(_) =>
    case OutsideOp(cs) => ChangeKeeps(s, cs, used);
  }

  ghost predicate Cold(s: State, used: set<int>) {
    s.cached.None? && s.index == map[] && s.modTime.None?
    && (s.main.Some? ==> s.main.value.mtime in used) && (s.bak.Some? ==> s.bak.value.mtime in used)
    && (s.main.Some? && s.bak.Some? ==> s.main.value.mtime != s.bak.value.mtime)
  }

  /** In every run that starts with a cold cache and never reuses a time, a cache hit is what is on disk. */
  lemma {:induction false} RunCoherent(s: State, ops: seq<Op>, used: set<int>) returns (all: set<int>)
    requires Coherent(s, used) && FreshOps(ops, used)
    ensures Coherent(Run(s, ops), all)
    decreases ops
  {
    hide Coherent, FreshOp, Do, Used;
    if ops == [] {
      all := used;
    } else {
      DoKeepsCoherent(s, ops[0], used);
      all := RunCoherent(Do(s, ops[0]), ops[1..], Used(ops[0], used));
    }
  }

  lemma EveryHitIsOnDisk(s: State, ops: seq<Op>, used: set<int>)
    requires Cold(s, used) && FreshOps(ops, used)
    ensures var t := Run(s, ops); IsHit(t) ==> t.main.value.file == Good(t.cached)
  {
    hide Run, FreshOps;
    NoIndex();
    assert Coherent(s, used);
    var all := RunCoherent(s, ops, used);
  }

  /** A hit that is not what is on disk. */
  ghost predicate StaleHit(s: State) {
    IsHit(s) && s.main.value.file != Good(s.cached)
  }

  /** A write makes hits stale exactly when it reuses the time the cache remembers for other content. */
  lemma ReusedTimeIsStale(s: State, used: set<int>, file: File, t: int)
    requires Coherent(s, used) && s.cached.Some?
    ensures StaleHit(Do(s, OutsideOp([Write(file, t)]))) <==> s.modTime == Some(t) && file != Good(s.cached)
  {
    hide Index;
    var c := Write(file, t);
    assert [c][1..] == [];
    assert After(s.main, [c]) == After(Changed(s.main, c), []);
  }

  // ---- The backend ----

  class LocalBackend {
    var main: Option<Stamped>
    var bak: Option<Stamped>
    var cachedEntries: Slice
    var index: map<string, Entry>
    var cacheModTime: Option<int>
    var hits: nat
    var misses: nat

    constructor (main: Option<Stamped>, bak: Option<Stamped>)
      ensures View() == State(main, bak, None, map[], None, 0, 0)
    {
      this.main, this.bak := main, bak;
      cachedEntries, index, cacheModTime := None, map[], None;
      hits, misses := 0, 0;
    }

    ghost function View(): State
      reads this
    {
      State(main, bak, cachedEntries, index, cacheModTime, hits, misses)
    }

    method InvalidateCache()
      modifies this
      ensures View() == Invalidated(old(View()))
    {
      cachedEntries, index, cacheModTime := None, map[], None;
    }

    method BuildIndex()
      modifies this`index
      ensures index == Index(cachedEntries)
    {
      index := map[];
      if cachedEntries.Some? {
        var entries := cachedEntries.value;
        var i := 0;
        while i < |entries|
          invariant 0 <= i <= |entries|
          invariant index == IndexOf(entries[..i])
        {
          assert entries[..i + 1][..i] == entries[..i];
          index := index[entries[i].fqn := entries[i]];
          i := i + 1;
        }
        assert entries[..i] == entries;
      }
    }

    /** Other processes at work. */
    method Outside(cs: seq<Change>)
      modifies this`main
      ensures main == After(old(main), cs)
    {
      var i := 0;
      while i < |cs|
        invariant 0 <= i <= |cs|
        invariant After(main, cs[i..]) == After(old(main), cs)
      {
        main := Changed(main, cs[i]);
        i := i + 1;
      }
    }

    method ReadBackup(restore: Option<int>, absent: Result<Slice>) returns (r: Result<Slice>)
      modifies this`main
      ensures (View(), r) == FromBackup(old(View()), restore, absent)
    {
      match bak
      case None => r := absent;
      case Some(Stamped(Bad, _)) => r := Err("corrupted");
      case Some(Stamped(Good(e), _)) =>
        if restore.Some? {
          main := Some(Stamped(Good(e), restore.value));
        }
        r := Ok(e);
    }

    method Load(cs: seq<Change>, restore: Option<int>) returns (r: Result<Slice>)
      modifies this
      ensures (View(), r) == LoadStep(old(View()), cs, restore)
    {
      hide After, Index, FromBackup;
      if main.None? {
        InvalidateCache();
        Outside(cs);
        r := ReadBackup(restore, Ok(None));
        return;
      }
      var modTime := main.value.mtime;
      if cachedEntries.Some? && cacheModTime == Some(modTime) {
        r := Ok(cachedEntries);
        Outside(cs);
        return;
      }
      Outside(cs);
      match main
      case None => r := Err("no such file");
      case Some(Stamped(Bad, _)) => r := ReadBackup(restore, Err("corrupted"));
      case Some(Stamped(Good(e), _)) =>
        cachedEntries := e;
        BuildIndex();
        cacheModTime := Some(modTime);
        r := Ok(e);
    }

    /** The renames of Save and what it does to the cache: only success invalidates it. */
    method Save(e: Slice, t: int, failure: Option<SaveFailure>) returns (ok: bool)
      modifies this
      ensures ok == failure.None?
      ensures View() == match failure
                        case None => SaveStep(old(View()), e, t)
                        case Some(how) => FailStep(old(View()), how)
    {
      if failure == Some(Untouched) {
        return false;
      }
      if main.Some? {
        main, bak := None, main;
      }
      if failure.Some? {
        if failure.value == RenamedBack && bak.Some? {
          main, bak := bak, None;
        }
        return false;
      }
      main := Some(Stamped(Good(e), t));
      InvalidateCache();
      ok := true;
    }

    method Get(fqn: string, cs: seq<Change>, restore: Option<int>) returns (r: Result<Option<Entry>>)
      modifies this
      ensures (View(), r) == GetStep(old(View()), fqn, cs, restore)
      ensures hits == old(hits) + (if r.Ok? && r.value.Some? then 1 else 0)
      ensures misses == old(misses) + (if r.Ok? && r.value.None? then 1 else 0)
      ensures r.Ok? && r.value.Some? ==> fqn in index && index[fqn] == r.value.value
      ensures r.Ok? && r.value.None? ==> fqn !in index
    {
      hide LoadStep;
      LoadCountsNothing(View(), cs, restore);
      var loaded := Load(cs, restore);
      if loaded.Err? {
        return Err(loaded.error);
      }
      if fqn in index {
        hits := hits + 1;
        r := Ok(Some(index[fqn]));
      } else {
        misses := misses + 1;
        r := Ok(None);
      }
    }
  }
}
