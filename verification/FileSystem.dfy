/**
 A file system that can lose power, and atomicWrite of internal/vault/vault.go on top of it.
 The directory has the entries programs see and, until it is synced, every earlier state it may
 come back with; a file comes back whole only if it was synced after it was written.
*/
module Disks {
  import opened Wire

  /** The content is None while only part of it has been written. */
  datatype File<+C> = File(content: Option<C>, synced: bool)

  /** `history` holds every state of the directory since its last sync, the current one last. */
  datatype Disk<+C> = Disk(
    entries: map<string, nat>, history: seq<map<string, nat>>, files: map<nat, File<C>>, next: nat)

  /** What is found at a path: nothing, a whole blob, or something else. */
  datatype Found<+C> = Missing | Whole(blob: C) | Torn

  ghost predicate WellFormed<C>(d: Disk<C>) {
    && d.history != [] && d.history[|d.history| - 1] == d.entries
    && (forall i | i in d.files :: i < d.next)
    && forall k, name | 0 <= k < |d.history| && name in d.history[k] :: d.history[k][name] in d.files
  }

  /** What a running program reads. */
  function Read<C>(d: Disk<C>, path: string): Found<C> {
    if path !in d.entries || d.entries[path] !in d.files then Missing
    else match d.files[d.entries[path]].content
      case Some(blob) => Whole(blob)
      case None => Torn
  }

  /** What a directory state can lead to after power loss: an unsynced file may come back as anything. */
  ghost predicate Leads<C>(d: Disk<C>, entries: map<string, nat>, path: string, found: Found<C>) {
    if path !in entries || entries[path] !in d.files then found == Missing
    else
      var file := d.files[entries[path]];
      file.synced ==> found == match file.content case Some(blob) => Whole(blob) case None => Torn
  }

  /** `found` may be at `path` after a power loss now. */
  ghost predicate Survives<C>(d: Disk<C>, path: string, found: Found<C>) {
    exists k :: 0 <= k < |d.history| && Leads(d, d.history[k], path, found)
  }

  // ---------------------------------------------------------------- system calls

  function Entered<C>(d: Disk<C>, entries: map<string, nat>): Disk<C> {
    d.(entries := entries, history := d.history + [entries])
  }

  function Created<C>(d: Disk<C>, name: string): Disk<C> {
    Entered(d, d.entries[name := d.next]).(files := d.files[d.next := File(None, false)], next := d.next + 1)
  }

  function Stored<C>(d: Disk<C>, inode: nat, file: File<C>): Disk<C> {
    d.(files := d.files[inode := file])
  }

  function Renamed<C>(d: Disk<C>, from: string, to: string): Disk<C>
    requires from in d.entries
  {
    Entered(d, (d.entries - {from})[to := d.entries[from]])
  }

  function Removed<C>(d: Disk<C>, name: string): Disk<C> {
    if name in d.entries then Entered(d, d.entries - {name}) else d
  }

  function DirectorySynced<C>(d: Disk<C>): Disk<C> {
    d.(history := [d.entries])
  }

  // ---------------------------------------------------------------- what a change can bring back

  /** Everything that may be found at `path` in `d` was already possible in `base`, or is `extra`. */
  ghost predicate Within<C(!new)>(base: Disk<C>, d: Disk<C>, path: string, extra: Found<C>) {
    forall found | Survives(d, path, found) :: Survives(base, path, found) || found == extra
  }

  /** The files of `base` are still in `d` as they were. */
  ghost predicate FilesKept<C>(base: Disk<C>, d: Disk<C>) {
    forall i | i in base.files :: i in d.files && d.files[i] == base.files[i]
  }

  /** The directory changed only away from `path`, and no old file changed. */
  ghost predicate PathKept<C>(base: Disk<C>, d: Disk<C>, path: string) {
    && FilesKept(base, d)
    && (path in d.entries <==> path in base.entries)
    && (path in d.entries ==> d.entries[path] == base.entries[path])
    && base.history <= d.history
    && forall k | |base.history| <= k < |d.history| ::
        && (path in d.history[k] <==> path in base.entries)
        && (path in d.history[k] ==> d.history[k][path] == base.entries[path])
  }

  /** Two directory states have the same entries but for these names. */
  ghost predicate SameElsewhere(a: map<string, nat>, b: map<string, nat>, names: set<string>) {
    forall name | name !in names :: (name in a <==> name in b) && (name in a && name in b ==> a[name] == b[name])
  }

  /** Directory state k of `d` is one of `base`, but for these names. */
  ghost predicate KnownElsewhere<C>(base: Disk<C>, d: Disk<C>, names: set<string>, k: nat)
    requires k < |d.history|
  {
    exists j :: 0 <= j < |base.history| && SameElsewhere(base.history[j], d.history[k], names)
  }

  /** The files of `base` are kept, and no directory state differs from those of `base` but at these names. */
  ghost predicate OthersKept<C>(base: Disk<C>, d: Disk<C>, names: set<string>) {
    && FilesKept(base, d) && SameElsewhere(base.entries, d.entries, names)
    && forall k | 0 <= k < |d.history| :: KnownElsewhere(base, d, names, k)
  }

  lemma OthersKeptStart<C>(d: Disk<C>, names: set<string>)
    requires WellFormed(d)
    ensures OthersKept(d, d, names)
  {
    forall k | 0 <= k < |d.history|
      ensures KnownElsewhere(d, d, names, k)
    {
      assert SameElsewhere(d.history[k], d.history[k], names);
    }
  }

  /** A new directory state that differs only at these names. */
  lemma OthersKeptEntered<C>(base: Disk<C>, d: Disk<C>, names: set<string>, entries: map<string, nat>)
    requires WellFormed(base) && OthersKept(base, d, names) && SameElsewhere(d.entries, entries, names)
    ensures OthersKept(base, Entered(d, entries), names)
  {
    var e := Entered(d, entries);
    forall k | 0 <= k < |e.history|
      ensures KnownElsewhere(base, e, names, k)
    {
      if k < |d.history| {
        assert KnownElsewhere(base, d, names, k);
      } else {
        assert SameElsewhere(base.history[|base.history| - 1], e.history[k], names);
      }
    }
  }

  lemma OthersKeptCreated<C>(base: Disk<C>, d: Disk<C>, name: string, names: set<string>)
    requires WellFormed(base) && WellFormed(d) && OthersKept(base, d, names) && name in names
    ensures OthersKept(base, Created(d, name), names)
  {
    OthersKeptEntered(base, d, names, d.entries[name := d.next]);
    OthersKeptFiles(base, Entered(d, d.entries[name := d.next]), Created(d, name), names);
  }

  lemma OthersKeptFiles<C>(base: Disk<C>, d: Disk<C>, e: Disk<C>, names: set<string>)
    requires OthersKept(base, d, names) && FilesKept(base, e) && e.entries == d.entries && e.history == d.history
    ensures OthersKept(base, e, names)
  {
    forall k | 0 <= k < |e.history|
      ensures KnownElsewhere(base, e, names, k)
    {
      assert KnownElsewhere(base, d, names, k);
    }
  }

  lemma OthersKeptSynced<C>(base: Disk<C>, d: Disk<C>, names: set<string>)
    requires WellFormed(base) && OthersKept(base, d, names)
    ensures OthersKept(base, DirectorySynced(d), names)
  {
    assert SameElsewhere(base.history[|base.history| - 1], d.entries, names);
    assert KnownElsewhere(base, DirectorySynced(d), names, 0);
  }

  /** Nothing can be found at the path in `d` that could not be found in `base`. */
  ghost predicate NothingNew<C(!new)>(base: Disk<C>, d: Disk<C>, path: string) {
    forall found | Survives(d, path, found) :: Survives(base, path, found)
  }

  /** The path reads as before, and nothing new can come back there. */
  ghost predicate Untouched<C(!new)>(base: Disk<C>, d: Disk<C>, path: string) {
    Read(d, path) == Read(base, path) && NothingNew(base, d, path)
  }

  lemma OthersUntouched<C(!new)>(base: Disk<C>, d: Disk<C>, names: set<string>, path: string)
    requires WellFormed(base) && OthersKept(base, d, names) && path !in names
    ensures Untouched(base, d, path)
  {
    assert base.entries == base.history[|base.history| - 1];
    forall found | Survives(d, path, found)
      ensures Survives(base, path, found)
    {
      var k: nat :| k < |d.history| && Leads(d, d.history[k], path, found);
      assert KnownElsewhere(base, d, names, k);
      var j: nat :| j < |base.history| && SameElsewhere(base.history[j], d.history[k], names);
      assert Leads(base, base.history[j], path, found);
    }
  }

  lemma PathKeptWithin<C(!new)>(base: Disk<C>, d: Disk<C>, path: string, extra: Found<C>)
    requires WellFormed(base) && PathKept(base, d, path)
    ensures Within(base, d, path, extra) && Read(d, path) == Read(base, path)
  {
    forall found | Survives(d, path, found)
      ensures Survives(base, path, found)
    {
      var k :| 0 <= k < |d.history| && Leads(d, d.history[k], path, found);
      var j := if k < |base.history| then k else |base.history| - 1;
      assert Leads(base, base.history[j], path, found);
    }
  }

  /** A new temporary file changes nothing at the path. */
  lemma CreatedKeeps<C(!new)>(base: Disk<C>, name: string, path: string, extra: Found<C>)
    requires WellFormed(base) && name != path
    ensures var d := Created(base, name);
      WellFormed(d) && PathKept(base, d, path) && Within(base, d, path, extra) && Read(d, path) == Read(base, path)
  {
    PathKeptWithin(base, Created(base, name), path, extra);
  }

  lemma StoredKeeps<C(!new)>(base: Disk<C>, d: Disk<C>, inode: nat, file: File<C>, path: string, extra: Found<C>)
    requires WellFormed(base) && WellFormed(d) && PathKept(base, d, path) && inode !in base.files && inode in d.files
    ensures var e := Stored(d, inode, file);
      WellFormed(e) && PathKept(base, e, path) && Within(base, e, path, extra)
  {
    PathKeptWithin(base, Stored(d, inode, file), path, extra);
  }

  lemma RemovedKeeps<C(!new)>(base: Disk<C>, d: Disk<C>, name: string, path: string, extra: Found<C>)
    requires WellFormed(base) && WellFormed(d) && PathKept(base, d, path) && name != path
    ensures var e := Removed(d, name);
      WellFormed(e) && Within(base, e, path, extra) && Read(e, path) == Read(base, path)
  {
    var e := Removed(d, name);
    assert PathKept(base, e, path);
    PathKeptWithin(base, e, path, extra);
  }

  lemma RenamedWellFormed<C>(d: Disk<C>, from: string, to: string)
    requires WellFormed(d) && from in d.entries
    ensures WellFormed(Renamed(d, from, to))
  {
    assert d.history[|d.history| - 1][from] in d.files;
    forall name | name in Renamed(d, from, to).entries
      ensures Renamed(d, from, to).entries[name] in d.files
    {
      if name != to {
        assert name in d.history[|d.history| - 1];
      }
    }
  }

  /** After a synced file is renamed onto the path, only that file is added to what may come back. */
  lemma PublishedWithin<C(!new)>(base: Disk<C>, d: Disk<C>, from: string, path: string, blob: C)
    requires WellFormed(base) && PathKept(base, d, path) && from in d.entries && from != path
    requires d.entries[from] in d.files && d.files[d.entries[from]] == File(Some(blob), true)
    ensures Within(base, Renamed(d, from, path), path, Whole(blob))
    ensures Read(Renamed(d, from, path), path) == Whole(blob)
  {
    var e := Renamed(d, from, path);
    forall found | Survives(e, path, found)
      ensures Survives(base, path, found) || found == Whole(blob)
    {
      var k :| 0 <= k < |e.history| && Leads(e, e.history[k], path, found);
      if k < |d.history| {
        assert Leads(d, d.history[k], path, found);
        assert Survives(d, path, found);
        PathKeptWithin(base, d, path, Missing);
        PathKeptWithin(base, d, path, Torn);
      }
    }
  }

  lemma SyncedWithin<C(!new)>(base: Disk<C>, d: Disk<C>, path: string, extra: Found<C>)
    requires WellFormed(d) && Within(base, d, path, extra)
    ensures Within(base, DirectorySynced(d), path, extra)
  {
    forall found | Survives(DirectorySynced(d), path, found)
      ensures Survives(d, path, found)
    {
      assert Leads(d, d.history[|d.history| - 1], path, found);
    }
  }

  lemma SyncedWellFormed<C>(d: Disk<C>)
    requires WellFormed(d)
    ensures WellFormed(DirectorySynced(d))
  {
    forall name | name in d.entries
      ensures d.entries[name] in d.files
    {
      assert name in d.history[|d.history| - 1];
    }
  }

  /** Once the directory is synced a path with a synced file can only come back as that file. */
  lemma SyncedExactly<C(!new)>(d: Disk<C>, path: string, blob: C)
    requires path in d.entries && d.entries[path] in d.files && d.files[d.entries[path]] == File(Some(blob), true)
    ensures forall found :: Survives(DirectorySynced(d), path, found) <==> found == Whole(blob)
  {
    var e := DirectorySynced(d);
    assert Leads(e, e.history[0], path, Whole(blob));
  }
}

module AtomicWrites {
  import opened Wire
  import opened Disks

  /** Which system calls of one atomicWrite fail; a write that fails may leave part of the blob behind. */
  datatype Faults = Faults(
    mkdir: bool, chmodDirectory: bool, createTemp: bool, chmod: bool, write: bool, sync: bool, close: bool,
    rename: bool, openDirectory: bool, syncDirectory: bool, remove: bool)

  /** A failure of any call makes atomicWrite return an error, except for the deferred removal. */
  predicate Fails(faults: Faults) {
    || faults.mkdir || faults.chmodDirectory || faults.createTemp || faults.chmod || faults.write || faults.sync
    || faults.close || faults.rename || faults.openDirectory || faults.syncDirectory
  }

  class FileSystem<C(!new)> {
    var disk: Disk<C>
    /** Every state the disk has been in, the current one last. */
    ghost var trace: seq<Disk<C>>

    constructor (initial: Disk<C>)
      ensures disk == initial && trace == [initial]
    {
      disk, trace := initial, [initial];
    }

    method Become(next: Disk<C>)
      modifies this
      ensures disk == next && trace == old(trace) + [next]
    {
      disk, trace := next, trace + [next];
    }
  }

  /** Every state the disk went through since `from` is safe to lose power in. */
  ghost predicate SafeSince<C(!new)>(
      trace: seq<Disk<C>>, from: nat, base: Disk<C>, path: string, extra: Found<C>) {
    forall i | from <= i < |trace| :: Within(base, trace[i], path, extra)
  }

  /**
   atomicWrite. Power may be lost in any state of the trace, so in the middle of the call too: what
   is then found at `path` could have been found there before the call, or is the whole new blob.
   A nil return means only the new blob can be found; after an error the path still reads as before
   or as the new blob.
  */
  method AtomicWrite<C(!new)>(fs: FileSystem<C>, path: string, blob: C, temporary: string, faults: Faults)
    returns (ok: bool)
    requires WellFormed(fs.disk) && temporary !in fs.disk.entries && temporary != path
    modifies fs
    ensures WellFormed(fs.disk) && old(fs.trace) <= fs.trace
    ensures SafeSince(fs.trace, |old(fs.trace)|, old(fs.disk), path, Whole(blob))
    ensures Within(old(fs.disk), fs.disk, path, Whole(blob))
    ensures ok ==> forall found :: Survives(fs.disk, path, found) <==> found == Whole(blob)
    ensures ok ==> Read(fs.disk, path) == Whole(blob) && fs.disk.history == [fs.disk.entries]
    ensures Read(fs.disk, path) == Read(old(fs.disk), path) || Read(fs.disk, path) == Whole(blob)
    ensures OthersKept(old(fs.disk), fs.disk, {path, temporary})
    ensures !faults.remove || ok ==> temporary !in fs.disk.entries
    ensures ok <==> !Fails(faults)
    ensures ok <==>
        faults == Faults(false, false, false, false, false, false, false, false, false, false, faults.remove)
  {
    ghost var base := fs.disk;
    PathKeptWithin(base, base, path, Whole(blob));
    OthersKeptStart(base, {path, temporary});
    if faults.mkdir {
      return false;
    }
    if faults.chmodDirectory {
      return false;
    }
    if faults.createTemp {
      return false;
    }
    ok := CreateAndPublish(fs, path, blob, temporary, faults);
  }

  /** From the successful CreateTemp on, with the deferred removal of the temporary file. */
  method CreateAndPublish<C(!new)>(fs: FileSystem<C>, path: string, blob: C, temporary: string, faults: Faults)
    returns (ok: bool)
    requires WellFormed(fs.disk) && temporary !in fs.disk.entries && temporary != path
    modifies fs
    ensures WellFormed(fs.disk) && old(fs.trace) <= fs.trace
    ensures SafeSince(fs.trace, |old(fs.trace)|, old(fs.disk), path, Whole(blob))
    ensures Within(old(fs.disk), fs.disk, path, Whole(blob))
    ensures ok ==> forall found :: Survives(fs.disk, path, found) <==> found == Whole(blob)
    ensures ok ==> Read(fs.disk, path) == Whole(blob) && fs.disk.history == [fs.disk.entries]
    ensures Read(fs.disk, path) == Read(old(fs.disk), path) || Read(fs.disk, path) == Whole(blob)
    ensures OthersKept(old(fs.disk), fs.disk, {path, temporary})
    ensures !faults.remove || ok ==> temporary !in fs.disk.entries
    ensures ok <==> !(faults.chmod || faults.write || faults.sync || faults.close
                      || faults.rename || faults.openDirectory || faults.syncDirectory)
  {
    ghost var base := fs.disk;
    var inode := fs.disk.next;
    CreatedKeeps(base, temporary, path, Whole(blob));
    OthersKeptStart(base, {path, temporary});
    OthersKeptCreated(base, base, temporary, {path, temporary});
    fs.Become(Created(fs.disk, temporary));
    ok := WriteTemporary(fs, path, blob, temporary, inode, faults, base);
    if ok {
      ok := Publish(fs, path, blob, temporary, faults, base);
    }
    if temporary !in fs.disk.entries {
      // The rename took the temporary name away: the deferred removal finds nothing.
      return;
    }
    PathKeptWithin(base, fs.disk, path, Whole(blob));
    if !faults.remove {
      RemovedKeeps(base, fs.disk, temporary, path, Whole(blob));
      OthersKeptEntered(base, fs.disk, {path, temporary}, fs.disk.entries - {temporary});
      fs.Become(Removed(fs.disk, temporary));
    }
  }

  /** From the new temporary file to its close: nothing changes at the path itself. */
  method WriteTemporary<C(!new)>(
      fs: FileSystem<C>, path: string, blob: C, temporary: string, inode: nat, faults: Faults, ghost base: Disk<C>)
    returns (ok: bool)
    requires WellFormed(base) && WellFormed(fs.disk) && PathKept(base, fs.disk, path)
    requires inode !in base.files && inode in fs.disk.files
    requires temporary in fs.disk.entries && fs.disk.entries[temporary] == inode
    requires OthersKept(base, fs.disk, {path, temporary})
    modifies fs
    ensures WellFormed(fs.disk) && PathKept(base, fs.disk, path) && old(fs.trace) <= fs.trace
    ensures OthersKept(base, fs.disk, {path, temporary})
    ensures SafeSince(fs.trace, |old(fs.trace)|, base, path, Whole(blob))
    ensures fs.disk.entries == old(fs.disk.entries) && inode in fs.disk.files
    ensures ok ==> fs.disk.files[inode] == File(Some(blob), true)
    ensures ok <==> !(faults.chmod || faults.write || faults.sync || faults.close)
  {
    if faults.chmod {
      return false;
    }
    Store(fs, inode, File(None, false), path, temporary, blob, base);
    if faults.write {
      return false;
    }
    Store(fs, inode, File(Some(blob), false), path, temporary, blob, base);
    if faults.sync {
      return false;
    }
    Store(fs, inode, File(Some(blob), true), path, temporary, blob, base);
    ok := !faults.close;
  }

  /** One change of the temporary file's state: partly written, written, synced. */
  method Store<C(!new)>(
      fs: FileSystem<C>, inode: nat, file: File<C>, path: string, ghost temporary: string, blob: C, ghost base: Disk<C>)
    requires WellFormed(base) && WellFormed(fs.disk) && PathKept(base, fs.disk, path)
    requires inode !in base.files && inode in fs.disk.files && OthersKept(base, fs.disk, {path, temporary})
    modifies fs
    ensures WellFormed(fs.disk) && PathKept(base, fs.disk, path) && OthersKept(base, fs.disk, {path, temporary})
    ensures fs.disk == Stored(old(fs.disk), inode, file) && fs.trace == old(fs.trace) + [fs.disk]
    ensures Within(base, fs.disk, path, Whole(blob))
  {
    StoredKeeps(base, fs.disk, inode, file, path, Whole(blob));
    OthersKeptFiles(base, fs.disk, Stored(fs.disk, inode, file), {path, temporary});
    fs.Become(Stored(fs.disk, inode, file));
  }

  /** The rename and the directory sync; only the rename changes what the path reads as. */
  method Publish<C(!new)>(
      fs: FileSystem<C>, path: string, blob: C, temporary: string, faults: Faults, ghost base: Disk<C>)
    returns (ok: bool)
    requires WellFormed(base) && WellFormed(fs.disk) && PathKept(base, fs.disk, path)
    requires temporary in fs.disk.entries && temporary != path
    requires fs.disk.entries[temporary] in fs.disk.files
    requires fs.disk.files[fs.disk.entries[temporary]] == File(Some(blob), true)
    requires OthersKept(base, fs.disk, {path, temporary})
    modifies fs
    ensures WellFormed(fs.disk) && old(fs.trace) <= fs.trace
    ensures SafeSince(fs.trace, |old(fs.trace)|, base, path, Whole(blob))
    ensures faults.rename ==> fs.disk == old(fs.disk)
    ensures !faults.rename ==>
        temporary !in fs.disk.entries && Read(fs.disk, path) == Whole(blob) && Within(base, fs.disk, path, Whole(blob))
    ensures OthersKept(base, fs.disk, {path, temporary})
    ensures ok ==> forall found :: Survives(fs.disk, path, found) <==> found == Whole(blob)
    ensures ok ==> fs.disk.history == [fs.disk.entries]
    ensures ok <==> !(faults.rename || faults.openDirectory || faults.syncDirectory)
  {
    if faults.rename {
      return false;
    }
    PublishedWithin(base, fs.disk, temporary, path, blob);
    RenamedWellFormed(fs.disk, temporary, path);
    OthersKeptEntered(base, fs.disk, {path, temporary}, Renamed(fs.disk, temporary, path).entries);
    fs.Become(Renamed(fs.disk, temporary, path));
    if faults.openDirectory {
      return false;
    }
    if faults.syncDirectory {
      return false;
    }
    SyncedWithin(base, fs.disk, path, Whole(blob));
    SyncedExactly(fs.disk, path, blob);
    SyncedWellFormed(fs.disk);
    OthersKeptSynced(base, fs.disk, {path, temporary});
    fs.Become(DirectorySynced(fs.disk));
    ok := true;
  }

  /** One save of a series: what is written, how a temporary name is picked, and how the calls fare. */
  datatype Attempt<!C> = Attempt(blob: C, pick: set<string> -> string, faults: Faults)

  /** CreateTemp never picks a name that is taken. */
  ghost predicate PicksFresh<C>(attempt: Attempt<C>) {
    forall names :: attempt.pick(names) !in names
  }

  /** The blobs that may be found after some saves: those attempted since the last one that returned nil. */
  ghost predicate Recent<C(!new)>(attempts: seq<Attempt<C>>, last: int, base: Disk<C>, path: string, found: Found<C>) {
    || (exists k :: 0 <= k < |attempts| && last <= k && found == Whole(attempts[k].blob))
    || (last < 0 && Survives(base, path, found))
  }

  /** The first m saves were started, all but perhaps the last have ended, and `last` is the last to return nil. */
  ghost predicate Progress<C>(attempts: seq<Attempt<C>>, m: nat, last: int) {
    && m <= |attempts| && -1 <= last < m && (last >= 0 ==> !Fails(attempts[last].faults))
    && forall j | last < j < m - 1 :: Fails(attempts[j].faults)
  }

  /** What power loss can bring back is recent, as far as the series has come. */
  ghost predicate SafeAt<C(!new)>(attempts: seq<Attempt<C>>, base: Disk<C>, path: string, d: Disk<C>) {
    exists m: nat, last ::
      && Progress(attempts, m, last)
      && forall found | Survives(d, path, found) :: Recent(attempts[..m], last, base, path, found)
  }

  lemma RecentGrows<C(!new)>(attempts: seq<Attempt<C>>, k: nat, last: int, base: Disk<C>, path: string, found: Found<C>)
    requires k < |attempts|
    ensures Recent(attempts[..k], last, base, path, found) ==> Recent(attempts[..k + 1], last, base, path, found)
    ensures last <= k && found == Whole(attempts[k].blob) ==> Recent(attempts[..k + 1], last, base, path, found)
  {
    assert forall j | 0 <= j < k :: attempts[..k][j] == attempts[..k + 1][j];
    assert attempts[..k + 1][k] == attempts[k];
  }

  /** A state in the middle of save k. */
  lemma SafeWithin<C(!new)>(
      attempts: seq<Attempt<C>>, k: nat, last: int, base: Disk<C>, path: string, before: Disk<C>, d: Disk<C>)
    requires k < |attempts| && -1 <= last < k && (last >= 0 ==> !Fails(attempts[last].faults))
    requires forall j | last < j < k :: Fails(attempts[j].faults)
    requires forall found | Survives(before, path, found) :: Recent(attempts[..k], last, base, path, found)
    requires Within(before, d, path, Whole(attempts[k].blob))
    ensures forall found | Survives(d, path, found) :: Recent(attempts[..k + 1], last, base, path, found)
    ensures SafeAt(attempts, base, path, d)
  {
    forall found | Survives(d, path, found)
      ensures Recent(attempts[..k + 1], last, base, path, found)
    {
      RecentGrows(attempts, k, last, base, path, found);
    }
    assert Progress(attempts, k + 1, last);
  }

  /**
   Any series of saves, each failing as it may: in every state on the way a power loss leaves the last
   blob whose save had returned nil, or one attempted after it, never a mixture and never anything older.
  */
  method SaveSeries<C(!new)>(fs: FileSystem<C>, path: string, attempts: seq<Attempt<C>>) returns (ghost last: int)
    requires WellFormed(fs.disk) && forall k | 0 <= k < |attempts| :: PicksFresh(attempts[k])
    modifies fs
    ensures WellFormed(fs.disk) && old(fs.trace) <= fs.trace
    ensures -1 <= last < |attempts| && (last >= 0 ==> !Fails(attempts[last].faults))
    ensures forall k | last < k < |attempts| :: Fails(attempts[k].faults)
    ensures forall found | Survives(fs.disk, path, found) :: Recent(attempts, last, old(fs.disk), path, found)
    ensures forall i | |old(fs.trace)| <= i < |fs.trace| :: SafeAt(attempts, old(fs.disk), path, fs.trace[i])
  {
    last := -1;
    ghost var base, from := fs.disk, |fs.trace|;
    var k := 0;
    while k < |attempts|
      invariant k <= |attempts| && -1 <= last < k && WellFormed(fs.disk) && old(fs.trace) <= fs.trace
      invariant (last >= 0 ==> !Fails(attempts[last].faults)) && forall j | last < j < k :: Fails(attempts[j].faults)
      invariant forall found | Survives(fs.disk, path, found) :: Recent(attempts[..k], last, base, path, found)
      invariant forall i | from <= i < |fs.trace| :: SafeAt(attempts, base, path, fs.trace[i])
    {
      last := SaveNext(fs, path, attempts, k, last, base, from);
      k := k + 1;
    }
    assert attempts[..k] == attempts;
  }

  /** One save of the series. */
  method SaveNext<C(!new)>(
      fs: FileSystem<C>, path: string, attempts: seq<Attempt<C>>, k: nat, ghost last: int, ghost base: Disk<C>,
      ghost from: nat)
    returns (ghost next: int)
    requires k < |attempts| && WellFormed(fs.disk) && PicksFresh(attempts[k])
    requires -1 <= last < k && (last >= 0 ==> !Fails(attempts[last].faults))
    requires forall j | last < j < k :: Fails(attempts[j].faults)
    requires forall found | Survives(fs.disk, path, found) :: Recent(attempts[..k], last, base, path, found)
    requires forall i | from <= i < |fs.trace| :: SafeAt(attempts, base, path, fs.trace[i])
    modifies fs
    ensures WellFormed(fs.disk) && old(fs.trace) <= fs.trace
    ensures next == if Fails(attempts[k].faults) then last else k
    ensures forall found | Survives(fs.disk, path, found) :: Recent(attempts[..k + 1], next, base, path, found)
    ensures forall i | from <= i < |fs.trace| :: SafeAt(attempts, base, path, fs.trace[i])
  {
    ghost var before := fs.disk;
    var temporary := attempts[k].pick(fs.disk.entries.Keys + {path});
    var ok := AtomicWrite(fs, path, attempts[k].blob, temporary, attempts[k].faults);
    next := if ok then k else last;
    SafeWithin(attempts, k, last, base, path, before, fs.disk);
    forall found | ok && Survives(fs.disk, path, found)
      ensures Recent(attempts[..k + 1], k, base, path, found)
    {
      RecentGrows(attempts, k, k, base, path, found);
    }
    forall i | |old(fs.trace)| <= i < |fs.trace|
      ensures SafeAt(attempts, base, path, fs.trace[i])
    {
      SafeWithin(attempts, k, last, base, path, before, fs.trace[i]);
    }
  }
}
