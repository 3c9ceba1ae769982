/**
 The self-upgrade of internal/upgrade/upgrade.go: which target is accepted, which checksum is
 expected, and how the binary is replaced and rolled back when renames fail.
*/
module Upgrade {
  import opened Wire
  import Returns
  import ReleaseTrust
  import Text
  import Versions

  // ---------------------------------------------------------------- the target

  datatype Release = Release(tag: string, draft: bool, prerelease: bool)

  predicate Eligible(release: Release) {
    !release.draft && !release.prerelease && '-' !in release.tag && Versions.ReleaseVersion(release.tag)
  }

  /** latestVersion: the first eligible release of the list, which is absent when the lookup failed. */
  method LatestVersion(releases: Option<seq<Release>>) returns (latest: Option<string>)
    ensures latest.Some? ==> releases.Some? && Versions.ReleaseVersion(latest.value) && '-' !in latest.value
    ensures latest.Some? ==> exists i ::
        && 0 <= i < |releases.value| && releases.value[i] == Release(latest.value, false, false)
        && forall j | 0 <= j < i :: !Eligible(releases.value[j])
    ensures latest.None? && releases.Some? ==> forall i | 0 <= i < |releases.value| :: !Eligible(releases.value[i])
    ensures forall tag, draft, prerelease ::
        Eligible(Release(tag, draft, prerelease)) <==>
          !draft && !prerelease && '-' !in tag && Versions.ReleaseVersion(tag)
  {
    if releases.None? {
      return None;
    }
    for i := 0 to |releases.value|
      invariant forall j | 0 <= j < i :: !Eligible(releases.value[j])
    {
      var release := releases.value[i];
      if Eligible(release) {
        return Some(release.tag);
      }
    }
    return None;
  }

  datatype Decision = Refused | UpToDate | Install(target: string)

  /** The version asked for: by flag, or else the latest release. */
  function Target(requested: string, latest: Option<string>): Option<string> {
    if requested == "" then latest else Some(requested)
  }

  /** Run up to the call of install; `requested` is the trimmed flag, `latest` the release lookup. */
  method Run(currentVersion: string, requested: string, latest: Option<string>) returns (decision: Decision)
    ensures forall target :: decision == Install(target) <==>
        && Versions.ReleaseVersion(currentVersion) && Versions.ReleaseVersion(target)
        && Versions.Newer(target, currentVersion)
        && (if requested != "" then target == requested else latest == Some(target))
    ensures decision.UpToDate? <==>
        && Versions.ReleaseVersion(currentVersion)
        && (if requested != "" then currentVersion == requested else latest == Some(currentVersion))
    ensures requested != "" ==> Target(requested, latest) == Some(requested)
    ensures Target("", latest) == latest
  {
    if !Versions.ReleaseVersion(currentVersion) {
      return Refused;
    }
    var target := requested;
    if target == "" {
      if latest.None? {
        return Refused;
      }
      target := latest.value;
    }
    if !Versions.ReleaseVersion(target) {
      return Refused;
    }
    if target == currentVersion {
      Versions.NotNewerThanItself(currentVersion);
      return UpToDate;
    }
    var comparison := Versions.CompareVersions(target, currentVersion);
    if comparison <= 0 {
      return Refused;
    }
    return Install(target);
  }

  // ---------------------------------------------------------------- the checksum

  predicate LowerHex(c: char) { '0' <= c <= '9' || 'a' <= c <= 'f' }

  predicate ChecksumPattern(text: string) {
    |text| == 64 && forall i | 0 <= i < 64 :: LowerHex(text[i])
  }

  function TrimStar(name: string): string {
    if name != "" && name[0] == '*' then name[1..] else name
  }

  function Lines(checksums: string): seq<string> { Text.Split(checksums, '\n') }

  /** A line of the manifest that names the artifact; `fields` is strings.Fields. */
  predicate Names(line: string, artifact: string, fields: string -> seq<string>) {
    |fields(line)| == 2 && TrimStar(fields(line)[1]) == artifact
  }

  ghost predicate OnlyEntry(lines: seq<string>, artifact: string, fields: string -> seq<string>, k: nat) {
    && k < |lines| && Names(lines[k], artifact, fields)
    && forall j | 0 <= j < |lines| && Names(lines[j], artifact, fields) :: j == k
  }

  /** The only entry, with a well-formed checksum. */
  ghost predicate ValidEntry(lines: seq<string>, artifact: string, fields: string -> seq<string>, k: nat) {
    OnlyEntry(lines, artifact, fields, k) && ChecksumPattern(fields(lines[k])[0])
  }

  /** Which lines name the artifact, by their two fields, and what a checksum looks like. */
  lemma NamesMeans(line: string, artifact: string, fields: string -> seq<string>)
    ensures Names(line, artifact, fields) <==>
        exists checksum ::
          || fields(line) == [checksum, "*" + artifact]
          || (fields(line) == [checksum, artifact] && (artifact == "" || artifact[0] != '*'))
    ensures forall checksum: string :: ChecksumPattern(checksum) <==>
        |checksum| == 64 && forall i | 0 <= i < 64 :: '0' <= checksum[i] <= '9' || 'a' <= checksum[i] <= 'f'
  {
    if Names(line, artifact, fields) {
      var words := fields(line);
      assert words == [words[0], words[1]] && (words[1] == "*" + artifact || words[1] == artifact);
    }
  }

  /** expectedChecksum: the checksum of the one line naming the artifact, and nothing otherwise. */
  method ExpectedChecksum(checksums: string, artifact: string, fields: string -> seq<string>)
    returns (checksum: Option<string>)
    ensures checksum.Some? <==> exists k: nat :: ValidEntry(Lines(checksums), artifact, fields, k)
    ensures forall k: nat | OnlyEntry(Lines(checksums), artifact, fields, k) && checksum.Some? ::
        checksum.value == fields(Lines(checksums)[k])[0]
  {
    checksum := OneChecksum(Lines(checksums), artifact, fields);
  }

  /** The loop over the lines. */
  method OneChecksum(
      lines: seq<string>, artifact: string, fields: string -> seq<string>)
    returns (checksum: Option<string>)
    ensures checksum.Some? <==> exists k: nat :: ValidEntry(lines, artifact, fields, k)
    ensures forall k: nat | OnlyEntry(lines, artifact, fields, k) && checksum.Some? ::
        checksum.value == fields(lines[k])[0]
  {
    var found := "";
    ghost var at: nat := 0;
    for i := 0 to |lines|
      invariant found == "" ==> forall j | 0 <= j < i :: !Names(lines[j], artifact, fields)
      invariant found != "" ==>
          && at < i && Names(lines[at], artifact, fields)
          && found == fields(lines[at])[0] && ChecksumPattern(found)
          && forall j | 0 <= j < i && Names(lines[j], artifact, fields) :: j == at
    {
      var words := fields(lines[i]);
      if |words| != 2 || TrimStar(words[1]) != artifact {
        continue;
      }
      assert Names(lines[i], artifact, fields);
      if found != "" || !ChecksumPattern(words[0]) {
        assert forall k: nat | ValidEntry(lines, artifact, fields, k) :: k == i;
        return None;
      }
      found, at := words[0], i;
    }
    if found == "" {
      return None;
    }
    assert ValidEntry(lines, artifact, fields, at);
    return Some(found);
  }

  // ---------------------------------------------------------------- replacing the binary

  /** The four paths that matter: the binary, its replacement, `.previous` and `.previous.old`. */
  datatype Path = Current | Newer | Backup | OldBackup

  /** The install directory; `trace` holds every state it has been in. */
  class Directory<B(!new, ==)> {
    var files: map<Path, B>
    ghost var trace: seq<map<Path, B>>

    constructor (initial: map<Path, B>)
      ensures files == initial && trace == [initial]
    {
      files, trace := initial, [initial];
    }

    /** os.Rename: replaces the target in one step, or changes nothing. */
    method Rename(from: Path, to: Path, fails: bool) returns (ok: bool)
      modifies this
      ensures ok <==> !fails && from in old(files)
      ensures files == if ok then (old(files) - {from})[to := old(files)[from]] else old(files)
      ensures trace == old(trace) + [files]
    {
      ok := !fails && from in files;
      if ok {
        files := (files - {from})[to := files[from]];
      }
      trace := trace + [files];
    }

    /** A new file at a path. */
    method Place(path: Path, binary: B)
      modifies this
      ensures files == old(files)[path := binary] && trace == old(trace) + [files]
    {
      files := files[path := binary];
      trace := trace + [files];
    }

    method Remove(path: Path, fails: bool)
      modifies this
      ensures files == if fails then old(files) else old(files) - {path}
      ensures trace == old(trace) + [files]
    {
      if !fails {
        files := files - {path};
      }
      trace := trace + [files];
    }
  }

  /** Which calls of one replaceBinary fail. */
  datatype Faults = Faults(
    inspect: bool, preserve: bool, moveCurrent: bool, installNew: bool, rollback: bool, restore: bool,
    removeBefore: bool, removeAfter: bool)

  predicate Holds<B(==)>(files: map<Path, B>, path: Path, binary: B) {
    path in files && files[path] == binary
  }

  /** The binary is at the current path or at the backup path. */
  predicate Kept<B(==)>(files: map<Path, B>, binary: B) {
    Holds(files, Current, binary) || Holds(files, Backup, binary)
  }

  ghost predicate KeptSince<B(!new)>(trace: seq<map<Path, B>>, from: nat, binary: B) {
    forall i | from <= i < |trace| :: Kept(trace[i], binary)
  }

  predicate SameAt<B(==)>(before: map<Path, B>, after: map<Path, B>, path: Path) {
    (path in after <==> path in before) && (path in after && path in before ==> after[path] == before[path])
  }

  /** Both paths are as they were. */
  predicate Restored<B(==)>(before: map<Path, B>, after: map<Path, B>) {
    SameAt(before, after, Current) && SameAt(before, after, Backup)
  }

  /** Neither the inspection nor the renames on the way to success fail. */
  predicate Succeeds(hadBackup: bool, f: Faults) {
    !f.inspect && !(hadBackup && f.preserve) && !f.moveCurrent && !f.installNew
  }

  /**
   The only way to lose the old binary: it stands at the backup path, cannot be moved back, and the
   older backup is then moved over it.
  */
  predicate Loses(hadBackup: bool, f: Faults) {
    hadBackup && !f.inspect && !f.preserve && !f.moveCurrent && f.installNew && f.rollback && !f.restore
  }

  /** When a failed replacement leaves the two paths as they were. */
  predicate RestoresBoth(hadBackup: bool, f: Faults) {
    || f.inspect
    || (hadBackup && f.preserve)
    || (f.moveCurrent && (hadBackup ==> !f.restore))
    || (!f.moveCurrent && f.installNew && !f.rollback && (hadBackup ==> !f.restore))
  }

  /** How many renames fail in one call. */
  function FailedRenames(hadBackup: bool, f: Faults): nat {
    if f.inspect then 0
    else if hadBackup && f.preserve then 1
    else if f.moveCurrent then 1 + (if hadBackup && f.restore then 1 else 0)
    else if f.installNew then 1 + (if f.rollback then 1 else 0) + (if hadBackup && f.restore then 1 else 0)
    else 0
  }

  /**
   replaceBinary. Success leaves the new binary current and the old one as backup; in every state of
   every call, and so at any stop, the old binary is kept, except in the one case of Loses.
  */
  method ReplaceBinary<B(!new, ==)>(d: Directory<B>, f: Faults) returns (ok: bool)
    requires Current in d.files && Newer in d.files
    modifies d
    ensures old(d.trace) <= d.trace
    ensures !Loses(Backup in old(d.files), f) ==>
        KeptSince(d.trace, |old(d.trace)|, old(d.files[Current])) && Kept(d.files, old(d.files[Current]))
    ensures Loses(Backup in old(d.files), f) ==>
        Current !in d.files && Backup in old(d.files) && Holds(d.files, Backup, old(d.files[Backup]))
    ensures ok ==>
        && Holds(d.files, Current, old(d.files[Newer])) && Holds(d.files, Backup, old(d.files[Current]))
        && Newer !in d.files
    ensures !ok ==> (Restored(old(d.files), d.files) <==> RestoresBoth(Backup in old(d.files), f))
    ensures !ok && Current in d.files ==> d.files[Current] == old(d.files[Current])
    ensures !ok && !f.rollback ==> Holds(d.files, Current, old(d.files[Current]))
    ensures !ok ==> Holds(d.files, Newer, old(d.files[Newer]))
    ensures ok ==>
        (OldBackup in d.files <==>
          f.removeAfter && (Backup in old(d.files) || (f.removeBefore && OldBackup in old(d.files))))
    ensures !ok && (Backup !in old(d.files) || f.inspect || f.preserve) ==>
        (OldBackup in d.files <==> f.removeBefore && OldBackup in old(d.files))
    ensures !ok && Backup in old(d.files) && !f.inspect && !f.preserve ==>
        && (OldBackup in d.files <==> f.restore)
        && (f.restore ==> Holds(d.files, OldBackup, old(d.files[Backup])))
    ensures ok <==> Succeeds(Backup in old(d.files), f)
    ensures ok ==> !f.moveCurrent && !f.installNew && !f.inspect && (Backup in old(d.files) ==> !f.preserve)
  {
    d.Remove(OldBackup, f.removeBefore);
    var hadBackup := false;
    if f.inspect {
      return false;
    }
    if Backup in d.files {
      var preserved := d.Rename(Backup, OldBackup, f.preserve);
      if !preserved {
        return false;
      }
      hadBackup := true;
    }
    ok := MoveAndInstall(d, hadBackup, f);
  }

  /** The two renames that exchange the binaries, after an older backup has been set aside. */
  method MoveAndInstall<B(!new, ==)>(d: Directory<B>, hadBackup: bool, f: Faults) returns (ok: bool)
    requires Current in d.files && Newer in d.files && Backup !in d.files
    requires hadBackup ==> OldBackup in d.files
    modifies d
    ensures old(d.trace) <= d.trace
    ensures !(hadBackup && !f.moveCurrent && f.installNew && f.rollback && !f.restore) ==>
        KeptSince(d.trace, |old(d.trace)|, old(d.files[Current])) && Kept(d.files, old(d.files[Current]))
    ensures ok ==>
        && Holds(d.files, Current, old(d.files[Newer])) && Holds(d.files, Backup, old(d.files[Current]))
        && Newer !in d.files
    ensures !ok ==>
        && (Current in d.files <==> f.moveCurrent || !f.rollback)
        && (Current in d.files ==> d.files[Current] == old(d.files[Current]))
        && (if hadBackup && !f.restore then Holds(d.files, Backup, old(d.files[OldBackup]))
            else if f.moveCurrent || !f.rollback then Backup !in d.files
            else Holds(d.files, Backup, old(d.files[Current])))
    ensures !ok ==> Holds(d.files, Newer, old(d.files[Newer]))
    ensures ok ==> (OldBackup in d.files <==> f.removeAfter && OldBackup in old(d.files))
    ensures !ok ==> (OldBackup in d.files <==> OldBackup in old(d.files) && (hadBackup ==> f.restore))
    ensures !ok && OldBackup in d.files ==> d.files[OldBackup] == old(d.files[OldBackup])
    ensures ok <==> !f.moveCurrent && !f.installNew
  {
    var moved := d.Rename(Current, Backup, f.moveCurrent);
    if !moved {
      RestoreOldBackup(d, hadBackup, f.restore);
      return false;
    }
    var installed := d.Rename(Newer, Current, f.installNew);
    if !installed {
      var _ := d.Rename(Backup, Current, f.rollback);
      RestoreOldBackup(d, hadBackup, f.restore);
      return false;
    }
    d.Remove(OldBackup, f.removeAfter);
    return true;
  }

  /** The closure restoreOldBackup. */
  method RestoreOldBackup<B(!new, ==)>(d: Directory<B>, hadBackup: bool, fails: bool)
    requires hadBackup ==> OldBackup in d.files
    modifies d
    ensures d.files ==
        if hadBackup && !fails then (old(d.files) - {OldBackup})[Backup := old(d.files)[OldBackup]] else old(d.files)
    ensures d.trace == old(d.trace) + if hadBackup then [d.files] else []
  {
    if hadBackup {
      var _ := d.Rename(OldBackup, Backup, fails);
    }
  }

  /** With at most one failed rename nothing is lost and a failed call puts both paths back. */
  lemma OneFailureIsHarmless(hadBackup: bool, f: Faults)
    requires FailedRenames(hadBackup, f) <= 1
    ensures !Loses(hadBackup, f)
    ensures !Succeeds(hadBackup, f) ==> RestoresBoth(hadBackup, f)
  {
  }

  /** What the checks of the new binary say, and whether the rollback calls of install fail. */
  datatype Checks = Checks(beforeOk: bool, afterOk: bool, removeFails: bool, rollbackFails: bool)

  /** The end of install goes through. */
  predicate TailSucceeds(hadBackup: bool, f: Faults, c: Checks) {
    c.beforeOk && c.afterOk && Succeeds(hadBackup, f)
  }

  /**
   What the end of install makes of the directory. A binary that fails the first check changes nothing,
   a failed replacement restores both paths exactly under RestoresBoth, and after a failed second check
   the old binary is current again exactly when the rollback rename works, its backup being used up.
  */
  ghost predicate TailResult<B>(before: map<Path, B>, after: map<Path, B>, newer: B, f: Faults, c: Checks)
    requires Current in before
  {
    var hadBackup := Backup in before;
    if !c.beforeOk then Restored(before, after)
    else if !Succeeds(hadBackup, f) then
      && (Restored(before, after) <==> RestoresBoth(hadBackup, f))
      && (Current in after ==> after[Current] == before[Current])
    else if c.afterOk then Holds(after, Current, newer) && Holds(after, Backup, before[Current])
    else if c.rollbackFails then
      && Holds(after, Backup, before[Current])
      && (if c.removeFails then Holds(after, Current, newer) else Current !in after)
    else Holds(after, Current, before[Current]) && Backup !in after
  }

  /** The end of install: check, replace, check again, and roll back when the second check fails. */
  method InstallTail<B(!new, ==)>(d: Directory<B>, f: Faults, c: Checks) returns (ok: bool)
    requires Current in d.files && Newer in d.files
    modifies d
    ensures old(d.trace) <= d.trace
    ensures !Loses(Backup in old(d.files), f) ==>
        KeptSince(d.trace, |old(d.trace)|, old(d.files[Current])) && Kept(d.files, old(d.files[Current]))
    ensures ok <==> TailSucceeds(Backup in old(d.files), f, c)
    ensures TailResult(old(d.files), d.files, old(d.files[Newer]), f, c)
    ensures !c.beforeOk ==> !ok && d.files == old(d.files) && d.trace == old(d.trace)
    ensures !c.afterOk ==> !ok
    ensures !ok && !f.rollback && !c.rollbackFails ==> Holds(d.files, Current, old(d.files[Current]))
  {
    if !c.beforeOk {
      return false;
    }
    var replaced := ReplaceBinary(d, f);
    if !replaced {
      return false;
    }
    if !c.afterOk {
      d.Remove(Current, c.removeFails);
      var _ := d.Rename(Backup, Current, c.rollbackFails);
      return false;
    }
    return true;
  }

  // ---------------------------------------------------------------- a whole upgrade

  /** What a Beacon is built and run with: trusted keys, its artifact, hashing, unpacking, `version` output. */
  datatype Platform<!A, !B> = Platform(
    trusted: map<string, ReleaseTrust.PublicKey>, artifact: string, fields: string -> seq<string>,
    hash: A -> string, extract: A -> Option<B>, reports: B -> string)

  /** One `beacon upgrade`: the flag, the lookup, the downloads, and how the calls fare. */
  datatype Attempt<+A> = Attempt(
    requested: string, latest: Option<string>, checksums: Option<string>,
    signatures: Option<Option<seq<ReleaseTrust.Signature>>>, archive: Option<A>, prepareFails: bool, faults: Faults,
    firstRunFails: bool, secondRunFails: bool, removeFails: bool, rollbackFails: bool, cleanupFails: bool)

  /** verifyBinary: the binary runs and reports the version. */
  predicate Verifies<B>(binary: B, version: string, reports: B -> string, runFails: bool) {
    !runFails && reports(binary) == version
  }

  /** The one entry of a checksum file for the artifact. */
  ghost predicate Lists<A, B>(p: Platform<A, B>, checksums: string, checksum: string) {
    exists k: nat ::
      && OnlyEntry(Lines(checksums), p.artifact, p.fields, k)
      && p.fields(Lines(checksums)[k])[0] == checksum
  }

  /**
   The binary comes from an archive whose hash is the one entry of a checksum file that a trusted key
   signed for just this version.
  */
  ghost predicate Authentic<A, B>(p: Platform<A, B>, version: string, attempt: Attempt<A>, binary: B) {
    && attempt.checksums.Some? && attempt.signatures.Some? && attempt.signatures.value.Some? && attempt.archive.Some?
    && ReleaseTrust.Accepted(version, attempt.checksums.value, attempt.signatures.value.value, p.trusted)
    && Lists(p, attempt.checksums.value, p.hash(attempt.archive.value))
    && p.extract(attempt.archive.value) == Some(binary)
    && ChecksumPattern(p.hash(attempt.archive.value))
  }

  lemma OneEntry<A, B>(p: Platform<A, B>, checksums: string, a: string, b: string)
    requires Lists(p, checksums, a) && Lists(p, checksums, b)
    ensures a == b
  {
  }

  /** The checksum that the file lists, if it is one. */
  method Listed<A, B>(p: Platform<A, B>, checksums: string) returns (checksum: Option<string>)
    ensures checksum.Some? ==> Lists(p, checksums, checksum.value) && ChecksumPattern(checksum.value)
    ensures checksum.None? ==> forall other | Lists(p, checksums, other) :: !ChecksumPattern(other)
  {
    checksum := ExpectedChecksum(checksums, p.artifact, p.fields);
    forall other | checksum.None? && Lists(p, checksums, other)
      ensures !ChecksumPattern(other)
    {
      var k: nat :| OnlyEntry(Lines(checksums), p.artifact, p.fields, k)
        && p.fields(Lines(checksums)[k])[0] == other;
      assert !ValidEntry(Lines(checksums), p.artifact, p.fields, k);
    }
  }

  /** install up to the extraction: the downloads are used only after signature and checksum are verified. */
  method Fetch<A, B(!new)>(p: Platform<A, B>, version: string, attempt: Attempt<A>) returns (binary: Option<B>)
    ensures binary.Some? ==> Authentic(p, version, attempt, binary.value)
    ensures binary.None? ==> forall other :: !Authentic(p, version, attempt, other)
  {
    if attempt.checksums.None? || attempt.signatures.None? {
      return None;
    }
    var checksums := attempt.checksums.value;
    var trusted := ReleaseTrust.Verify(version, checksums, attempt.signatures.value, p.trusted);
    if !trusted {
      return None;
    }
    var expected := Listed(p, checksums);
    if expected.None? || attempt.archive.None? {
      return None;
    }
    if p.hash(attempt.archive.value) != expected.value {
      forall other
        ensures !Authentic(p, version, attempt, other)
      {
        if Lists(p, checksums, p.hash(attempt.archive.value)) {
          OneEntry(p, checksums, p.hash(attempt.archive.value), expected.value);
        }
      }
      return None;
    }
    return p.extract(attempt.archive.value);
  }

  /** When an upgrade succeeds: everything asked for and served is right, and no call fails that matters. */
  ghost predicate Succeeding<A, B(!new)>(
      p: Platform<A, B>, currentVersion: string, attempt: Attempt<A>, hadBackup: bool, binary: B) {
    && Versions.ReleaseVersion(currentVersion) && Target(attempt.requested, attempt.latest).Some?
    && var target := Target(attempt.requested, attempt.latest).value;
       && Versions.ReleaseVersion(target) && Versions.Newer(target, currentVersion)
       && !attempt.prepareFails && Authentic(p, target, attempt, binary) && p.reports(binary) == target
       && !attempt.firstRunFails && !attempt.secondRunFails && Succeeds(hadBackup, attempt.faults)
  }

  /** An upgrade that comes to its binary: the target is newer, and what is served for it is authentic. */
  ghost predicate Fetched<A, B(!new)>(p: Platform<A, B>, currentVersion: string, attempt: Attempt<A>, binary: B) {
    && Versions.ReleaseVersion(currentVersion) && Target(attempt.requested, attempt.latest).Some?
    && var target := Target(attempt.requested, attempt.latest).value;
       && Versions.ReleaseVersion(target) && Versions.Newer(target, currentVersion)
       && !attempt.prepareFails && Authentic(p, target, attempt, binary)
  }

  /** What the two runs of the new binary say. */
  function ChecksOf<A, B>(p: Platform<A, B>, target: string, attempt: Attempt<A>, binary: B): Checks {
    Checks(Verifies(binary, target, p.reports, attempt.firstRunFails),
           Verifies(binary, target, p.reports, attempt.secondRunFails), attempt.removeFails, attempt.rollbackFails)
  }

  /**
   What one upgrade by the current binary makes of the directory: it succeeds exactly under Succeeding,
   and then the authentic binary of the target is current and the old one its backup; refused or without
   an authentic binary nothing changes; otherwise the end of install decides.
  */
  ghost predicate Upgraded<A, B(!new)>(
      p: Platform<A, B>, attempt: Attempt<A>, before: map<Path, B>, after: map<Path, B>, installed: Option<string>) {
    && Current in before
    && var version := p.reports(before[Current]);
       && (installed.Some? <==> exists binary :: Succeeding(p, version, attempt, Backup in before, binary))
       && (installed.Some? ==> Arrived(p, attempt, before, after, installed.value))
       && ((forall binary :: !Fetched(p, version, attempt, binary)) ==> after == before)
       && (forall binary | Fetched(p, version, attempt, binary) ::
            TailResult(before, after, binary, attempt.faults,
                       ChecksOf(p, Target(attempt.requested, attempt.latest).value, attempt, binary)))
       && (Kept(after, before[Current]) || Loses(Backup in before, attempt.faults))
  }

  /** The target has arrived: its authentic binary is current, and what ran before is the backup. */
  ghost predicate Arrived<A, B(!new)>(
      p: Platform<A, B>, attempt: Attempt<A>, before: map<Path, B>, after: map<Path, B>, version: string)
    requires Current in before
  {
    && Target(attempt.requested, attempt.latest) == Some(version) && Versions.ReleaseVersion(version)
    && Versions.Newer(version, p.reports(before[Current]))
    && Current in after && p.reports(after[Current]) == version && Authentic(p, version, attempt, after[Current])
    && Holds(after, Backup, before[Current])
  }

  lemma OneBinary<A, B(!new)>(p: Platform<A, B>, currentVersion: string, attempt: Attempt<A>, a: B, b: B)
    requires Fetched(p, currentVersion, attempt, a) && Fetched(p, currentVersion, attempt, b)
    ensures a == b
  {
  }

  /** A whole upgrade, up to the removal of its temporary directory. */
  method Upgrade<A, B(!new, ==)>(d: Directory<B>, attempt: Attempt<A>, p: Platform<A, B>)
    returns (installed: Option<string>)
    requires Current in d.files
    modifies d
    ensures old(d.trace) <= d.trace && Upgraded(p, attempt, old(d.files), d.files, installed)
    ensures installed.Some? ==>
        && installed == (if attempt.requested != "" then Some(attempt.requested) else attempt.latest)
        && !attempt.prepareFails && !attempt.firstRunFails && !attempt.secondRunFails
    ensures installed.None? && !attempt.faults.rollback && !attempt.rollbackFails ==>
        Holds(d.files, Current, old(d.files[Current]))
    ensures !Loses(Backup in old(d.files), attempt.faults) ==>
        KeptSince(d.trace, |old(d.trace)|, old(d.files[Current]))
  {
    ghost var before := d.files;
    var currentVersion := p.reports(d.files[Current]);
    var decision := Run(currentVersion, attempt.requested, attempt.latest);
    if !decision.Install? || attempt.prepareFails {
      return None;
    }
    var fetched := Fetch(p, decision.target, attempt);
    if fetched.None? {
      return None;
    }
    var binary := fetched.value;
    var checks := ChecksOf(p, decision.target, attempt, binary);
    var ok := InstallFetched(d, binary, attempt.faults, checks, attempt.cleanupFails);
    installed := if ok then Some(decision.target) else None;
    TailIsUpgrade(p, attempt, before, d.files, installed, binary);
  }

  /** The end of install, run with the binary that was fetched, is the whole upgrade. */
  lemma TailIsUpgrade<A, B(!new)>(
      p: Platform<A, B>, attempt: Attempt<A>, before: map<Path, B>, after: map<Path, B>, installed: Option<string>,
      binary: B)
    requires Current in before && Fetched(p, p.reports(before[Current]), attempt, binary)
    requires var target := Target(attempt.requested, attempt.latest).value;
        var c := ChecksOf(p, target, attempt, binary);
        && installed == (if TailSucceeds(Backup in before, attempt.faults, c) then Some(target) else None)
        && TailResult(before, after, binary, attempt.faults, c)
    requires Kept(after, before[Current]) || Loses(Backup in before, attempt.faults)
    ensures Upgraded(p, attempt, before, after, installed)
  {
    var version := p.reports(before[Current]);
    assert installed.Some? ==> Succeeding(p, version, attempt, Backup in before, binary);
    forall other | Fetched(p, version, attempt, other)
      ensures other == binary
    {
      OneBinary(p, version, attempt, other, binary);
    }
  }

  /** From the extraction to the deferred removal of the temporary directory. */
  method InstallFetched<B(!new, ==)>(
      d: Directory<B>, binary: B, f: Faults, c: Checks, cleanupFails: bool)
    returns (ok: bool)
    requires Current in d.files
    modifies d
    ensures old(d.trace) <= d.trace
    ensures !Loses(Backup in old(d.files), f) ==>
        KeptSince(d.trace, |old(d.trace)|, old(d.files[Current])) && Kept(d.files, old(d.files[Current]))
    ensures ok <==> TailSucceeds(Backup in old(d.files), f, c)
    ensures TailResult(old(d.files), d.files, binary, f, c)
    ensures !ok && !f.rollback && !c.rollbackFails ==> Holds(d.files, Current, old(d.files[Current]))
  {
    ghost var before := d.files;
    d.Place(Newer, binary);
    ok := InstallTail(d, f, c);
    ghost var after := d.files;
    d.Remove(Newer, cleanupFails);
    assert forall path | path != Newer :: SameAt(after, d.files, path);
  }

  /** No two archives hash alike. */
  ghost predicate IdealHash<A(!new)>(hash: A -> string) {
    forall a, b | hash(a) == hash(b) :: a == b
  }

  /** The archive that was published as the artifact of a version, by every checksum file signed for it. */
  ghost predicate PublishedAs<A, B>(p: Platform<A, B>, published: set<(string, string)>, version: string, original: A) {
    forall checksums | (version, checksums) in published :: Lists(p, checksums, p.hash(original))
  }

  /**
   Whatever is served to it, an upgrade installs the binary that was published for its target, as
   long as the trusted keys sign published releases only.
  */
  lemma InstallsWhatWasPublished<A(!new), B>(
      p: Platform<A, B>, version: string, attempt: Attempt<A>, binary: B, published: set<(string, string)>, original: A)
    requires Authentic(p, version, attempt, binary) && Versions.ReleaseVersion(version) && IdealHash(p.hash)
    requires ReleaseTrust.OnlyPublished(attempt.signatures.value.value, p.trusted, published)
    requires forall release | release in published :: '\n' !in release.0
    requires PublishedAs(p, published, version, original)
    ensures (version, attempt.checksums.value) in published
    ensures attempt.archive == Some(original) && p.extract(original) == Some(binary)
  {
    Versions.NoNewline(version);
    ReleaseTrust.AcceptancePins(
      version, attempt.checksums.value, attempt.signatures.value.value, p.trusted, published);
    OneEntry(p, attempt.checksums.value, p.hash(attempt.archive.value), p.hash(original));
  }

  // ---------------------------------------------------------------- series of upgrades

  /** Attempt k led from directory k to the next one. */
  ghost predicate AttemptAt<A, B(!new)>(
      p: Platform<A, B>, attempts: seq<Attempt<A>>, dirs: seq<map<Path, B>>, outcomes: seq<Option<string>>, k: nat)
    requires k < |outcomes| <= |attempts| && |dirs| == |outcomes| + 1
  {
    Upgraded(p, attempts[k], dirs[k], dirs[k + 1], outcomes[k])
  }

  /** The attempts that were made, each by the binary that was current then. */
  ghost predicate Series<A, B(!new)>(
      p: Platform<A, B>, attempts: seq<Attempt<A>>, dirs: seq<map<Path, B>>, outcomes: seq<Option<string>>) {
    && |outcomes| <= |attempts| && |dirs| == |outcomes| + 1
    && forall k | 0 <= k < |outcomes| :: AttemptAt(p, attempts, dirs, outcomes, k)
  }

  /** What the current binary of a directory reports. */
  function Reported<A, B>(p: Platform<A, B>, dir: map<Path, B>): string {
    if Current in dir then p.reports(dir[Current]) else ""
  }

  /**
   A binary that is current reports what was reported before, or the attempt's target, which is newer,
   as it does after a success.
  */
  predicate Changes<A, B>(
      p: Platform<A, B>, attempt: Attempt<A>, before: map<Path, B>, after: map<Path, B>, installed: Option<string>) {
    var version, target := Reported(p, before), Target(attempt.requested, attempt.latest);
    if installed.Some? then
      Current in after && target == installed == Some(Reported(p, after)) && Versions.Newer(installed.value, version)
    else
      Current in after && Reported(p, after) != version ==>
        target == Some(Reported(p, after)) && Versions.Newer(Reported(p, after), version)
  }

  lemma AttemptReports<A, B(!new)>(
      p: Platform<A, B>, attempt: Attempt<A>, before: map<Path, B>, after: map<Path, B>, installed: Option<string>)
    requires Upgraded(p, attempt, before, after, installed)
    ensures Current in before && Changes(p, attempt, before, after, installed)
  {
    var version := p.reports(before[Current]);
    if binary :| Fetched(p, version, attempt, binary) {
      var c := ChecksOf(p, Target(attempt.requested, attempt.latest).value, attempt, binary);
      assert TailResult(before, after, binary, attempt.faults, c);
    }
  }

  /** No step from i to j is between two versions that are each newer than the other. */
  predicate NoMutualStep(reported: seq<string>, i: nat, j: nat)
    requires j < |reported|
  {
    forall k | i <= k < j :: !Returns.MutualAt(reported, Versions.Newer, k)
  }

  /** The versions that were current, as far as there was a binary. */
  ghost predicate Reports<A, B>(p: Platform<A, B>, dirs: seq<map<Path, B>>, reported: seq<string>) {
    && |dirs| - 1 <= |reported| <= |dirs|
    && forall k | 0 <= k < |reported| :: Current in dirs[k] && reported[k] == Reported(p, dirs[k])
  }

  lemma AttemptChanges<A, B(!new)>(
      p: Platform<A, B>, attempts: seq<Attempt<A>>, dirs: seq<map<Path, B>>, outcomes: seq<Option<string>>, k: nat)
    requires Series(p, attempts, dirs, outcomes) && k < |outcomes|
    ensures Changes(p, attempts[k], dirs[k], dirs[k + 1], outcomes[k])
  {
    assert AttemptAt(p, attempts, dirs, outcomes, k);
    AttemptReports(p, attempts[k], dirs[k], dirs[k + 1], outcomes[k]);
  }

  /** Attempt k leaves the version as it is or moves it to its newer target, as a success does. */
  predicate MoveAt<A>(attempts: seq<Attempt<A>>, outcomes: seq<Option<string>>, reported: seq<string>, k: nat)
    requires k < |outcomes| <= |attempts| && k + 1 < |reported|
  {
    && Returns.MovesAt(reported, Versions.Newer, k)
    && (reported[k + 1] != reported[k] ==>
        Target(attempts[k].requested, attempts[k].latest) == Some(reported[k + 1]))
    && (outcomes[k].Some? ==> Returns.RisesAt(reported, Versions.Newer, k))
  }

  ghost predicate Moving<A>(attempts: seq<Attempt<A>>, outcomes: seq<Option<string>>, reported: seq<string>) {
    && |reported| - 1 <= |outcomes| <= |attempts|
    && forall k | 0 <= k < |reported| - 1 :: MoveAt(attempts, outcomes, reported, k)
  }

  lemma SeriesMoves<A, B(!new)>(
      p: Platform<A, B>, attempts: seq<Attempt<A>>, dirs: seq<map<Path, B>>, outcomes: seq<Option<string>>,
      reported: seq<string>)
    requires Series(p, attempts, dirs, outcomes) && Reports(p, dirs, reported)
    ensures Moving(attempts, outcomes, reported)
  {
    forall k | 0 <= k < |reported| - 1
      ensures MoveAt(attempts, outcomes, reported, k)
    {
      AttemptChanges(p, attempts, dirs, outcomes, k);
    }
  }

  /**
   Without a mutual step the reported version never falls: it stays, or gets strictly newer, as it does
   over every stretch with a successful upgrade.
  */
  lemma NeverFalls<A>(
      attempts: seq<Attempt<A>>, outcomes: seq<Option<string>>, reported: seq<string>, i: nat, j: nat)
    requires Moving(attempts, outcomes, reported) && i <= j < |reported| && NoMutualStep(reported, i, j)
    ensures reported[i] == reported[j] || Returns.Strictly(Versions.Newer, reported[i], reported[j])
    ensures (exists k :: i <= k < j && outcomes[k].Some?) ==>
        Versions.Newer(reported[j], reported[i]) && reported[i] != reported[j]
  {
    forall k | i <= k < j
      ensures Returns.MovesAt(reported, Versions.Newer, k)
      ensures outcomes[k].Some? ==> Returns.RisesAt(reported, Versions.Newer, k)
    {
      assert MoveAt(attempts, outcomes, reported, k);
    }
    Versions.NewerIsStrictlyTransitive();
    Returns.StaysOrRises(reported, Versions.Newer, i, j);
    Versions.NotNewerThanItself(reported[i]);
  }

  /** The start and every target are such versions. */
  ghost predicate AllAre<A>(fine: string -> bool, start: string, attempts: seq<Attempt<A>>) {
    fine(start) && forall n | 0 <= n < |attempts| :: TargetIs(fine, attempts[n])
  }

  predicate TargetIs<A>(fine: string -> bool, attempt: Attempt<A>) {
    match Target(attempt.requested, attempt.latest) case Some(target) => fine(target) case None => true
  }

  /** Then every version reported is. */
  lemma {:induction false} ReportsAre<A>(
      attempts: seq<Attempt<A>>, outcomes: seq<Option<string>>, reported: seq<string>, fine: string -> bool, n: nat)
    requires Moving(attempts, outcomes, reported) && n < |reported| && AllAre(fine, reported[0], attempts)
    ensures fine(reported[n])
  {
    if n > 0 {
      ReportsAre(attempts, outcomes, reported, fine, n - 1);
      assert MoveAt(attempts, outcomes, reported, n - 1) && TargetIs(fine, attempts[n - 1]);
    }
  }

  /** Without leading zeros in any version, no version that a success has left comes back. */
  lemma NoVersionReturns<A, B(!new)>(
      p: Platform<A, B>, attempts: seq<Attempt<A>>, dirs: seq<map<Path, B>>, outcomes: seq<Option<string>>,
      reported: seq<string>, i: nat, k: nat, j: nat)
    requires Series(p, attempts, dirs, outcomes) && Reports(p, dirs, reported)
    requires i <= k < j < |reported| && outcomes[k].Some?
    requires AllAre(Versions.WellWritten, reported[0], attempts)
    ensures Versions.Newer(reported[j], reported[i]) && reported[i] != reported[j]
  {
    SeriesMoves(p, attempts, dirs, outcomes, reported);
    forall n | i <= n < j
      ensures !Returns.MutualAt(reported, Versions.Newer, n)
    {
      ReportsAre(attempts, outcomes, reported, Versions.WellWritten, n);
      ReportsAre(attempts, outcomes, reported, Versions.WellWritten, n + 1);
      Versions.WellWrittenNotMutual(reported[n], reported[n + 1]);
    }
    NeverFalls(attempts, outcomes, reported, i, j);
  }

  /** Success k arrived at its target. */
  predicate Arrives<A>(attempts: seq<Attempt<A>>, outcomes: seq<Option<string>>, reported: seq<string>, k: nat)
    requires k < |outcomes| <= |attempts|
  {
    outcomes[k].Some? ==>
      && Target(attempts[k].requested, attempts[k].latest) == outcomes[k]
      && k + 1 < |reported| && reported[k + 1] == outcomes[k].value
  }

  lemma SuccessArrives<A, B(!new)>(
      p: Platform<A, B>, attempts: seq<Attempt<A>>, dirs: seq<map<Path, B>>, outcomes: seq<Option<string>>,
      reported: seq<string>, k: nat)
    requires k < |outcomes| <= |attempts| && |dirs| == |outcomes| + 1 && Reports(p, dirs, reported)
    requires Changes(p, attempts[k], dirs[k], dirs[k + 1], outcomes[k])
    requires Current in dirs[|outcomes|] ==> |reported| == |dirs|
    ensures Arrives(attempts, outcomes, reported, k)
  {
  }

  lemma SeriesNext<A, B(!new)>(
      p: Platform<A, B>, attempts: seq<Attempt<A>>, dirs: seq<map<Path, B>>, outcomes: seq<Option<string>>,
      dir: map<Path, B>, outcome: Option<string>)
    requires Series(p, attempts, dirs, outcomes) && |outcomes| < |attempts|
    requires Upgraded(p, attempts[|outcomes|], dirs[|outcomes|], dir, outcome)
    ensures Series(p, attempts, dirs + [dir], outcomes + [outcome])
  {
    forall n | 0 <= n <= |outcomes|
      ensures AttemptAt(p, attempts, dirs + [dir], outcomes + [outcome], n)
    {
      assert n < |outcomes| ==> AttemptAt(p, attempts, dirs, outcomes, n);
    }
  }

  lemma SeriesFacts<A, B(!new)>(
      p: Platform<A, B>, attempts: seq<Attempt<A>>, dirs: seq<map<Path, B>>, outcomes: seq<Option<string>>,
      reported: seq<string>)
    requires Series(p, attempts, dirs, outcomes) && Reports(p, dirs, reported)
    requires Current in dirs[|outcomes|] ==> |reported| == |dirs|
    ensures forall k | 0 <= k < |outcomes| :: Arrives(attempts, outcomes, reported, k)
    ensures forall i, k, j | 0 <= i <= k < j < |reported| && outcomes[k].Some? && NoMutualStep(reported, i, j) ::
        Versions.Newer(reported[j], reported[i]) && reported[i] != reported[j]
  {
    forall k | 0 <= k < |outcomes|
      ensures Arrives(attempts, outcomes, reported, k)
    {
      AttemptChanges(p, attempts, dirs, outcomes, k);
      SuccessArrives(p, attempts, dirs, outcomes, reported, k);
    }
    SeriesMoves(p, attempts, dirs, outcomes, reported);
    forall i, k, j | 0 <= i <= k < j < |reported| && outcomes[k].Some? && NoMutualStep(reported, i, j)
      ensures Versions.Newer(reported[j], reported[i]) && reported[i] != reported[j]
    {
      NeverFalls(attempts, outcomes, reported, i, j);
    }
  }

  /**
   One upgrade after the other, each run by the binary that is current then, through failed ones too, for as
   long as there is a current binary. Every success installs its target, and over a stretch with a success in
   it the version reported is strictly newer, unless a step was between mutually newer versions.
  */
  method UpgradeSeries<A, B(!new, ==)>(d: Directory<B>, attempts: seq<Attempt<A>>, p: Platform<A, B>)
    returns (reported: seq<string>, outcomes: seq<Option<string>>, ghost dirs: seq<map<Path, B>>)
    requires Current in d.files
    modifies d
    ensures Series(p, attempts, dirs, outcomes) && Reports(p, dirs, reported)
    ensures dirs[0] == old(d.files) && dirs[|outcomes|] == d.files
    ensures |reported| == |dirs| <==> Current in d.files
    ensures |outcomes| < |attempts| ==> Current !in d.files
    ensures forall k | 0 <= k < |outcomes| :: Arrives(attempts, outcomes, reported, k)
    ensures forall i, k, j | 0 <= i <= k < j < |reported| && outcomes[k].Some? && NoMutualStep(reported, i, j) ::
        Versions.Newer(reported[j], reported[i]) && reported[i] != reported[j]
  {
    reported, outcomes, dirs := [p.reports(d.files[Current])], [], [d.files];
    while |outcomes| < |attempts| && Current in d.files
      invariant Series(p, attempts, dirs, outcomes) && Reports(p, dirs, reported)
      invariant dirs[0] == old(d.files) && dirs[|outcomes|] == d.files
      invariant |reported| == |dirs| <==> Current in d.files
    {
      var installed := Upgrade(d, attempts[|outcomes|], p);
      SeriesNext(p, attempts, dirs, outcomes, d.files, installed);
      outcomes, dirs := outcomes + [installed], dirs + [d.files];
      if Current in d.files {
        reported := reported + [p.reports(d.files[Current])];
      }
    }
    SeriesFacts(p, attempts, dirs, outcomes, reported);
  }
}
