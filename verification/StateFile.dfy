/** The local state file of internal/state/local.go: a main file replaced through a temporary one, with the
    previous version kept as a backup. */
module StateFile {
  import opened Wrappers
  import Strings

  datatype Status = Applied | Failed | Orphaned

  datatype Entry = Entry(fqn: string, hash: string, status: Status, error: string)

  /** A slice of entries; None is nil. */
  type Slice = Option<seq<Entry>>

  /** A file either parses to entries or does not parse. */
  datatype File = Good(entries: Slice) | Bad

  datatype Disk = Disk(main: Option<File>, bak: Option<File>, tmp: Option<File>)

  datatype Loaded = Entries(entries: Slice) | Corrupted

  // ---- Load ----

  /** What Load returns. */
  function Read(d: Disk): Loaded {
    match d.main
    case Some(Good(e)) => Entries(e)
    case Some(Bad) => (match d.bak case Some(Good(e)) => Entries(e) case _ => Corrupted)
    case None => (match d.bak case Some(Good(e)) => Entries(e) case Some(Bad) => Corrupted case None => Entries(None))
  }

  /** How far the rewriting of the main file from the backup gets. */
  datatype Restore = Full | Partial | Nothing

  predicate NeedsBackup(d: Disk) {
    d.main in {None, Some(Bad)} && d.bak.Some? && d.bak.value.Good?
  }

  /** The disk Load leaves. */
  function AfterLoad(d: Disk, restore: Restore): Disk {
    if !NeedsBackup(d) then d else
      match restore
      case Full => d.(main := d.bak)
      case Partial => d.(main := Some(Bad))
      case Nothing => d
  }

  /** Loading changes nothing that loading can see, even when the restoring write is cut short. */
  lemma LoadKeeps(d: Disk, restore: Restore)
    ensures Read(AfterLoad(d, restore)) == Read(d)
  {
  }

  // ---- Save ----

  /** Which system calls fail. */
  datatype Faults = Faults(create: bool, write: bool, sync: bool, close: bool, backup: bool, commit: bool,
                           restore: bool, cleanup: bool)

  function Cleanup(d: Disk, f: Faults): Disk {
    if f.cleanup then d else d.(tmp := None)
  }

  function Backup(d: Disk): Disk {
    if d.main.Some? then d.(main := None, bak := d.main) else d
  }

  /** The restoring rename fails when there is no backup. */
  function RestoreBackup(d: Disk, f: Faults): Disk {
    if f.restore || d.bak.None? then d else d.(main := d.bak, bak := None)
  }

  /** The disk after each system call that Save makes: a crash leaves one of these. */
  function SaveTrace(d: Disk, e: Slice, f: Faults): (t: seq<Disk>)
    ensures t != [] && t[0] == d
  {
    if f.create then [d] else
      var d1 := d.(tmp := Some(Bad));
      if f.write then [d, d1, Cleanup(d1, f)] else
        var d2 := d1.(tmp := Some(Good(e)));
        if f.sync || f.close || (d.main.Some? && f.backup) then [d, d1, d2, Cleanup(d2, f)] else
          var d3 := Backup(d2);
          if f.commit then
            var d4 := RestoreBackup(d3, f);
            [d, d1, d2, d3, d4, Cleanup(d4, f)]
          else [d, d1, d2, d3, d3.(main := d3.tmp, tmp := None)]
  }

  predicate SaveSucceeds(d: Disk, f: Faults) {
    !f.create && !f.write && !f.sync && !f.close && !(d.main.Some? && f.backup) && !f.commit
  }

  /** The main file is unreadable while the backup is not: saving would move it over the backup. */
  predicate Exposed(d: Disk) {
    d.main == Some(Bad) && d.bak.Some? && d.bak.value.Good?
  }

  ghost predicate OldOrNew(d: Disk, e: Slice, after: Disk) {
    Read(after) == Read(d) || Read(after) == Entries(e)
  }

  ghost predicate CrashSafe(d: Disk, e: Slice) {
    forall f, i :: 0 <= i < |SaveTrace(d, e, f)| ==> OldOrNew(d, e, SaveTrace(d, e, f)[i])
  }

  lemma TraceSafe(d: Disk, e: Slice, f: Faults, i: nat)
    requires !Exposed(d) && i < |SaveTrace(d, e, f)|
    ensures OldOrNew(d, e, SaveTrace(d, e, f)[i]) && !Exposed(SaveTrace(d, e, f)[i])
    ensures Read(d) != Corrupted ==> Read(SaveTrace(d, e, f)[i]) != Corrupted
  {
  }

  /** A crash anywhere in Save, or any failed call, leaves exactly the old or exactly the new entries, if and only
      if the main file is not the unreadable one of two. */
  lemma CrashSafety(d: Disk, e: Slice)
    ensures CrashSafe(d, e) <==> !Exposed(d)
  {
    if !Exposed(d) {
      forall f, i | 0 <= i < |SaveTrace(d, e, f)| ensures OldOrNew(d, e, SaveTrace(d, e, f)[i]) {
        TraceSafe(d, e, f, i);
      }
    } else {
      var none := Faults(false, false, false, false, false, false, false, false);
      var t := SaveTrace(d, e, none);
      assert Read(t[3]) == Corrupted;
      assert !OldOrNew(d, e, t[3]);
    }
  }

  /** Saving succeeds exactly when the last disk reads as the new entries were committed. */
  lemma Committed(d: Disk, e: Slice, f: Faults)
    ensures var last := SaveTrace(d, e, f)[|SaveTrace(d, e, f)| - 1];
            if SaveSucceeds(d, f)
            then last.main == Some(Good(e)) && last.tmp == None && last.bak == (if d.main.Some? then d.main else d.bak)
            else !Exposed(d) ==> Read(last) == Read(d)
  {
  }

  /** What a save that fails leaves: without a fault in the tidying up no temporary file, and the old files in place,
      except that a failing last rename uses the backup up. */
  lemma FailedSaveLeaves(d: Disk, e: Slice, f: Faults)
    requires !SaveSucceeds(d, f)
    ensures var last := SaveTrace(d, e, f)[|SaveTrace(d, e, f)| - 1];
            && (f.create ==> last == d)
            && (!f.create && !f.cleanup ==> last.tmp == None)
            && (f.create || f.write || f.sync || f.close || (d.main.Some? && f.backup) ==>
                  last.main == d.main && last.bak == d.bak)
            && (!f.create && !f.write && !f.sync && !f.close && !(d.main.Some? && f.backup) && !f.restore ==>
                  last.main == (if d.main.Some? then d.main else d.bak) && last.bak == None)
  {
  }

  /** Where the entries that a load returns come from: a readable main file, else a readable backup; with neither file
      there are none, which is no error. */
  lemma ReadFrom(d: Disk)
    ensures d.main.Some? && d.main.value.Good? ==> Read(d) == Entries(d.main.value.entries)
    ensures !(d.main.Some? && d.main.value.Good?) && d.bak.Some? && d.bak.value.Good? ==>
              Read(d) == Entries(d.bak.value.entries)
    ensures d.main.None? && d.bak.None? ==> Read(d) == Entries(None)
    ensures Read(d) == Corrupted <==>
              && (d.main == Some(Bad) || d.bak == Some(Bad))
              && !(d.main.Some? && d.main.value.Good?) && !(d.bak.Some? && d.bak.value.Good?)
  {
  }

  /** A load that completes its restoring write makes the main file a copy of the backup, whenever it had to use that,
      and otherwise leaves the files alone. */
  lemma LoadRestores(d: Disk)
    ensures var after := AfterLoad(d, Full);
            && after.bak == d.bak && after.tmp == d.tmp
            && (d.main.Some? && d.main.value.Good? ==> after.main == d.main)
            && (!(d.main.Some? && d.main.value.Good?) && d.bak.Some? && d.bak.value.Good? ==> after.main == d.bak)
  {
  }

  // ---- Any number of processes that load, then save ----

  /** Loads cut short, one load that returns, and a save that stops after some of its system calls. A restoring
      write that fails is only logged, so the load returns however far that write got. */
  datatype Round = Round(broken: seq<Restore>, last: Restore, entries: Slice, faults: Faults, stop: nat)

  function AfterLoads(d: Disk, broken: seq<Restore>, last: Restore): Disk
    decreases broken
  {
    if broken == [] then AfterLoad(d, last) else AfterLoads(AfterLoad(d, broken[0]), broken[1..], last)
  }

  function AfterRound(d: Disk, r: Round): Disk {
    var loaded := AfterLoads(d, r.broken, r.last);
    var t := SaveTrace(loaded, r.entries, r.faults);
    t[if r.stop < |t| then r.stop else |t| - 1]
  }

  function AfterRounds(d: Disk, rounds: seq<Round>): Disk
    decreases rounds
  {
    if rounds == [] then d else AfterRounds(AfterRound(d, rounds[0]), rounds[1..])
  }

  /** Loading does not change what loads; it leaves the disk exposed only if its own restoring write failed. */
  lemma {:induction false} LoadsKeep(d: Disk, broken: seq<Restore>, last: Restore)
    ensures Read(AfterLoads(d, broken, last)) == Read(d)
    ensures last == Full ==> !Exposed(AfterLoads(d, broken, last))
    decreases broken
  {
    if broken != [] {
      LoadKeeps(d, broken[0]);
      LoadsKeep(AfterLoad(d, broken[0]), broken[1..], last);
    }
  }

  /** Wherever the save of the round stops and whichever of its calls fail. */
  ghost predicate RoundCrashSafe(d: Disk, broken: seq<Restore>, last: Restore, e: Slice) {
    forall f, stop :: OldOrNew(d, e, AfterRound(d, Round(broken, last, e, f, stop)))
  }

  /** A round leaves exactly the old or exactly the new entries, if and only if its load did not leave an unreadable
      main file beside a readable backup. */
  lemma RoundSafety(d: Disk, broken: seq<Restore>, last: Restore, e: Slice)
    ensures RoundCrashSafe(d, broken, last, e) <==> !Exposed(AfterLoads(d, broken, last))
  {
    hide Exposed, Read, SaveTrace, AfterLoads;
    var loaded := AfterLoads(d, broken, last);
    LoadsKeep(d, broken, last);
    if !Exposed(loaded) {
      forall f, stop ensures OldOrNew(d, e, AfterRound(d, Round(broken, last, e, f, stop))) {
        RoundSafe(d, Round(broken, last, e, f, stop));
      }
    } else {
      ExposedLost(d, broken, last, e);
    }
  }

  lemma RoundSafe(d: Disk, r: Round)
    requires !Exposed(AfterLoads(d, r.broken, r.last))
    ensures OldOrNew(d, r.entries, AfterRound(d, r))
    ensures Read(d) != Corrupted ==> Read(AfterRound(d, r)) != Corrupted
  {
    hide Exposed, Read, SaveTrace, AfterLoads;
    var loaded := AfterLoads(d, r.broken, r.last);
    LoadsKeep(d, r.broken, r.last);
    var t := SaveTrace(loaded, r.entries, r.faults);
    TraceSafe(loaded, r.entries, r.faults, if r.stop < |t| then r.stop else |t| - 1);
  }

  const NO_FAULTS := Faults(false, false, false, false, false, false, false, false)

  /** From an exposed disk a save without any fault that stops after its backup leaves nothing to load. */
  lemma ExposedLost(d: Disk, broken: seq<Restore>, last: Restore, e: Slice)
    requires Exposed(AfterLoads(d, broken, last))
    ensures Read(d) != Corrupted
    ensures Read(AfterRound(d, Round(broken, last, e, NO_FAULTS, 3))) == Corrupted
  {
    hide AfterLoads;
    LoadsKeep(d, broken, last);
  }

  /** A restoring write that fails and a crash after the next backup lose a state that was loaded in between. */
  lemma FailedRestoreLosesState(before: Slice, e: Slice)
    ensures var d := Disk(None, Some(Good(before)), None);
            Read(d) == Entries(before) && Read(AfterRound(d, Round([], Partial, e, NO_FAULTS, 3))) == Corrupted
    ensures var d := Disk(Some(Bad), Some(Good(before)), None);
            Read(d) == Entries(before) && Read(AfterRound(d, Round([], Nothing, e, NO_FAULTS, 3))) == Corrupted
  {
    ExposedLost(Disk(None, Some(Good(before)), None), [], Partial, e);
    ExposedLost(Disk(Some(Bad), Some(Good(before)), None), [], Nothing, e);
  }

  /** No round saves from an exposed disk. */
  ghost predicate Guarded(d: Disk, rounds: seq<Round>)
    decreases rounds
  {
    rounds == [] || (!Exposed(AfterLoads(d, rounds[0].broken, rounds[0].last)) &&
                     Guarded(AfterRound(d, rounds[0]), rounds[1..]))
  }

  /** Rounds whose restoring writes succeed are guarded, whatever the disk and wherever they crash. */
  lemma {:induction false} FullRestoresGuard(d: Disk, rounds: seq<Round>)
    requires forall i :: 0 <= i < |rounds| ==> rounds[i].last == Full
    ensures Guarded(d, rounds)
    decreases rounds
  {
    hide AfterRound, Exposed;
    if rounds != [] {
      LoadsKeep(d, rounds[0].broken, rounds[0].last);
      FullRestoresGuard(AfterRound(d, rounds[0]), rounds[1..]);
    }
  }

  ghost predicate Offered(l: Loaded, d: Disk, rounds: seq<Round>) {
    l == Read(d) || exists i :: 0 <= i < |rounds| && l == Entries(rounds[i].entries)
  }

  /** Whatever crashed, the state read after any number of guarded rounds is the first one or one that was being
      saved, and it is never lost. */
  lemma {:induction false} RoundsSafe(d: Disk, rounds: seq<Round>)
    requires Guarded(d, rounds)
    ensures Offered(Read(AfterRounds(d, rounds)), d, rounds)
    ensures Read(d) != Corrupted ==> Read(AfterRounds(d, rounds)) != Corrupted
    decreases rounds
  {
    hide Read, AfterRound, Exposed;
    if rounds != [] {
      var next := AfterRound(d, rounds[0]);
      RoundSafe(d, rounds[0]);
      RoundsSafe(next, rounds[1..]);
      var l := Read(AfterRounds(next, rounds[1..]));
      if l == Read(next) {
        assert l == Read(d) || l == Entries(rounds[0].entries);
      } else {
        var i :| 0 <= i < |rounds[1..]| && l == Entries(rounds[1..][i].entries);
        assert l == Entries(rounds[i + 1].entries);
      }
    }
  }

  lemma {:induction false} RoundsAppend(d: Disk, a: seq<Round>, b: seq<Round>)
    ensures AfterRounds(d, a + b) == AfterRounds(AfterRounds(d, a), b)
    decreases a
  {
    hide AfterRound;
    if a == [] {
      assert a + b == b;
    } else {
      assert (a + b)[1..] == a[1..] + b;
      RoundsAppend(AfterRound(d, a[0]), a[1..], b);
    }
  }

  /** The save of r ran to its end with no error. */
  ghost predicate Completes(d: Disk, r: Round) {
    var loaded := AfterLoads(d, r.broken, r.last);
    SaveSucceeds(loaded, r.faults) && r.stop >= |SaveTrace(loaded, r.entries, r.faults)|
  }

  /** Once a save has returned without error, only what it or a later round saved can be read. */
  lemma SavedIsKept(d: Disk, a: seq<Round>, r: Round, b: seq<Round>)
    requires Completes(AfterRounds(d, a), r) && Guarded(AfterRounds(d, a + [r]), b)
    ensures var l := Read(AfterRounds(d, a + [r] + b));
            l == Entries(r.entries) || exists i :: 0 <= i < |b| && l == Entries(b[i].entries)
  {
    hide AfterLoads, AfterRounds, SaveTrace, SaveSucceeds;
    var before := AfterRounds(d, a);
    Committed(AfterLoads(before, r.broken, r.last), r.entries, r.faults);
    assert Read(AfterRound(before, r)) == Entries(r.entries);
    RoundsAppend(d, a + [r], b);
    RoundsAppend(d, a, [r]);
    OneRound(before, r);
    RoundsSafe(AfterRound(before, r), b);
  }

  lemma OneRound(d: Disk, r: Round)
    ensures AfterRounds(d, [r]) == AfterRound(d, r)
  {
    hide AfterRound;
    assert AfterRounds(d, [r]) == AfterRounds(AfterRound(d, r), []);
  }

  // ---- The operations on the disk ----

  predicate Before(x: Entry, y: Entry) {
    Strings.Less(x.fqn, y.fqn)
  }

  lemma BeforeWeakOrder()
    ensures Strings.WeakOrder(Before)
  {
    hide Strings.Less;
    Strings.LessWeakOrder();
    assert forall x: Entry, y: Entry, z: Entry :: Before(x, z) ==> Before(x, y) || Before(y, z) by {
      forall x: Entry, y: Entry, z: Entry | Before(x, z) ensures Before(x, y) || Before(y, z) {
        assert Strings.Less(x.fqn, z.fqn) ==> Strings.Less(x.fqn, y.fqn) || Strings.Less(y.fqn, z.fqn);
      }
    }
    forall x: Entry, y: Entry, z: Entry | Before(x, y) && Before(y, z) ensures Before(x, z) {
      assert Strings.Less(x.fqn, y.fqn) && Strings.Less(y.fqn, z.fqn);
    }
  }

  lemma SortedByName(entries: seq<Entry>)
    requires Strings.SortedBy(entries, Before)
    ensures forall i, j :: 0 <= i < j < |entries| ==> !Strings.Less(entries[j].fqn, entries[i].fqn)
  {
    hide Strings.Less;
  }

  class FileSystem {
    var disk: Disk
    /** The disk after every system call so far. */
    ghost var history: seq<Disk>

    constructor (d: Disk)
      ensures disk == d && history == [d]
    {
      disk := d;
      history := [d];
    }

    method Set(d: Disk)
      modifies this
      ensures disk == d && history == old(history) + [d]
    {
      disk := d;
      history := history + [d];
    }

    method Load(restore: Restore) returns (r: Loaded)
      modifies this
      ensures r == Read(old(disk)) && disk == AfterLoad(old(disk), restore)
    {
      match disk.main
      case None => r := LoadFromBackup(restore);
      case Some(Good(e)) => r := Entries(e);
      case Some(Bad) => r := RecoverFromBackup(restore);
    }

    method LoadFromBackup(restore: Restore) returns (r: Loaded)
      requires disk.main.None?
      modifies this
      ensures r == Read(old(disk)) && disk == AfterLoad(old(disk), restore)
    {
      match disk.bak
      case None => r := Entries(None);
      case Some(Bad) => r := Corrupted;
      case Some(Good(e)) =>
        Set(AfterLoad(disk, restore));
        r := Entries(e);
    }

    method RecoverFromBackup(restore: Restore) returns (r: Loaded)
      requires disk.main == Some(Bad)
      modifies this
      ensures r == Read(old(disk)) && disk == AfterLoad(old(disk), restore)
    {
      match disk.bak
      case Some(Good(e)) =>
        Set(AfterLoad(disk, restore));
        r := Entries(e);
      case _ => r := Corrupted;
    }

    /** Sorts the caller's slice, then goes through the system calls; ok is false when an error is returned. */
    method Save(entries: array?<Entry>, f: Faults) returns (ok: bool)
      requires history != [] && history[|history| - 1] == disk
      modifies this, entries
      ensures entries != null ==>
                Strings.SortedBy(entries[..], Before) && multiset(entries[..]) == multiset(old(entries[..]))
      ensures entries != null ==>
                forall i, j :: 0 <= i < j < entries.Length ==> !Strings.Less(entries[j].fqn, entries[i].fqn)
      ensures ok == SaveSucceeds(old(disk), f)
      ensures var saved: Slice := if entries == null then None else Some(entries[..]);
              history == old(history) + SaveTrace(old(disk), saved, f)[1..]
      ensures disk == history[|history| - 1]
    {
      hide Strings.SortedBy, Strings.WeakOrder;
      if entries != null {
        BeforeWeakOrder();
        Strings.InsertionSort(entries, Before);
        SortedByName(entries[..]);
      }
      var data: Slice := if entries == null then None else Some(entries[..]);
      ok := Write(data, f);
    }

    method Write(data: Slice, f: Faults) returns (ok: bool)
      requires history != [] && history[|history| - 1] == disk
      modifies this
      ensures ok == SaveSucceeds(old(disk), f)
      ensures history == old(history) + SaveTrace(old(disk), data, f)[1..]
      ensures disk == history[|history| - 1]
    {
      if f.create {
        return false;
      }
      Set(disk.(tmp := Some(Bad)));
      if f.write {
        Set(Cleanup(disk, f));
        return false;
      }
      Set(disk.(tmp := Some(Good(data))));
      if f.sync || f.close {
        Set(Cleanup(disk, f));
        return false;
      }
      ok := Replace(f);
    }

    /** Steps 3 and 4 of Save: the backup and the atomic rename. */
    method Replace(f: Faults) returns (ok: bool)
      modifies this
      ensures ok == !((old(disk).main.Some? && f.backup) || f.commit)
      ensures var d2 := old(disk); var d3 := Backup(d2);
              history == old(history) +
                if d2.main.Some? && f.backup then [Cleanup(d2, f)]
                else if f.commit then [d3, RestoreBackup(d3, f), Cleanup(RestoreBackup(d3, f), f)]
                else [d3, d3.(main := d3.tmp, tmp := None)]
      ensures disk == history[|history| - 1]
    {
      if disk.main.Some? {
        if f.backup {
          Set(Cleanup(disk, f));
          return false;
        }
        Set(disk.(main := None, bak := disk.main));
      } else {
        Set(disk);
      }
      if f.commit {
        if f.restore || disk.bak.None? {
          Set(disk);
        } else {
          Set(disk.(main := disk.bak, bak := None));
        }
        Set(Cleanup(disk, f));
        return false;
      }
      Set(disk.(main := disk.tmp, tmp := None));
      ok := true;
    }
  }
}
