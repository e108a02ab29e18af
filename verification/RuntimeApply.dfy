/** Applying a rendered runtime manifest to the host's files: the commit loop, the deferred deletes and
    their rollback (migrations/runtime-apply.ts:40-94, 137-213; migrations/release/atomic-file.ts:25-76). */
module RuntimeApply {
  import opened Common
  import LegacyPool

  datatype File = File(content: string, mode: nat, uid: nat, gid: nat)

  /** A directory entry: a regular file, or anything the release refuses to touch. */
  datatype Entry = Regular(file: File) | Foreign

  type Disk = map<string, Entry>

  datatype Owner = Owner(uid: nat, gid: nat)

  datatype Artifact =
    | Write(target: string, content: string, replace: bool, mode: Option<nat>, owner: Option<Owner>)
    | Delete(target: string, deferred: bool)

  /** What the manifest parser guarantees: a create declares complete metadata. */
  predicate Declared(a: Artifact) {
    a.Write? && !a.replace ==> a.mode.Some? && a.owner.Some?
  }

  ghost predicate WellFormed(artifacts: seq<Artifact>) {
    (forall a <- artifacts :: Declared(a)) && Distinct(Map(artifacts, TargetOf))
  }

  function TargetOf(a: Artifact): string { a.target }

  // ------------------------------------------------------------------- one write

  predicate MetadataMatches(a: Artifact, f: File)
    requires a.Write?
  {
    (a.mode.Some? ==> f.mode == a.mode.value) && (a.owner.Some? ==> Owner(f.uid, f.gid) == a.owner.value)
  }

  /** The target already is what the artifact asks for. */
  predicate Settled(a: Artifact, disk: Disk)
    requires a.Write?
  {
    a.target in disk && disk[a.target].Regular? && disk[a.target].file.content == a.content
    && MetadataMatches(a, disk[a.target].file)
  }

  predicate Writable(a: Artifact, disk: Disk)
    requires a.Write?
  {
    if a.target in disk then disk[a.target].Regular? else !a.replace || (a.mode.Some? && a.owner.Some?)
  }

  /** atomicWriteManagedFile: metadata that is not declared stays as it is. */
  function Written(a: Artifact, disk: Disk): File
    requires a.Write? && Writable(a, disk) && Declared(a)
  {
    if a.target in disk then
      var f := disk[a.target].file;
      File(a.content, if a.mode.Some? then a.mode.value else f.mode,
           if a.owner.Some? then a.owner.value.uid else f.uid, if a.owner.Some? then a.owner.value.gid else f.gid)
    else File(a.content, a.mode.value, a.owner.value.uid, a.owner.value.gid)
  }

  // -------------------------------------------------------------------- the commit

  /** How far a commit got: the files, whether it is still going, and how many files it wrote. */
  datatype Commit = Commit(disk: Disk, ok: bool, written: nat)

  /** The targets whose staged file cannot be read back, and those whose write fails with an I/O error. */
  datatype Faults = Faults(unreadable: set<string>, unwritable: set<string>)

  const NO_FAULTS := Faults({}, {})

  function CommitOne(a: Artifact, c: Commit, faults: Faults): Commit
    requires Declared(a)
  {
    if !c.ok || a.Delete? then c
    else if a.target in faults.unreadable then c.(ok := false)
    else if a.target in c.disk && c.disk[a.target].Foreign? then c.(ok := false)
    else if Settled(a, c.disk) then c
    else if !Writable(a, c.disk) || a.target in faults.unwritable then c.(ok := false)
    else Commit(c.disk[a.target := Regular(Written(a, c.disk))], true, c.written + 1)
  }

  /** The commit loop. */
  function CommitAll(disk: Disk, artifacts: seq<Artifact>, faults: Faults): Commit
    requires forall a <- artifacts :: Declared(a)
  {
    if artifacts == [] then Commit(disk, true, 0)
    else CommitOne(artifacts[|artifacts| - 1], CommitAll(disk, artifacts[..|artifacts| - 1], faults), faults)
  }

  ghost predicate Untouched(artifacts: seq<Artifact>, t: string) {
    forall a <- artifacts :: a.Write? ==> a.target != t
  }

  /** A commit can succeed: no write meets a foreign entry or lacks the metadata it needs. */
  ghost predicate Committable(disk: Disk, artifacts: seq<Artifact>) {
    forall a <- artifacts :: a.Write? ==> Writable(a, disk)
  }

  ghost predicate SameEntry(t: string, disk: Disk, after: Disk) {
    (t in after <==> t in disk) && (t in disk ==> after[t] == disk[t])
  }

  /** The target of a write holds what the write declares, relative to the files it started from. */
  ghost predicate Done(a: Artifact, disk: Disk, after: Disk)
    requires a.Write? && Declared(a) && Writable(a, disk)
  {
    a.target in after && after[a.target] == Regular(Written(a, disk))
  }

  /** The files after a complete commit, target by target. */
  ghost predicate CommittedState(disk: Disk, artifacts: seq<Artifact>, after: Disk)
    requires WellFormed(artifacts) && Committable(disk, artifacts)
  {
    && (forall a <- artifacts :: a.Write? ==> Done(a, disk, after))
    && (forall t :: Untouched(artifacts, t) ==> SameEntry(t, disk, after))
  }

  /** Some of the writes have happened, nothing else has. */
  ghost predicate Between(disk: Disk, artifacts: seq<Artifact>, after: Disk)
    requires WellFormed(artifacts) && Committable(disk, artifacts)
  {
    && (forall a <- artifacts :: a.Write? ==> Done(a, disk, after) || SameEntry(a.target, disk, after))
    && (forall t :: Untouched(artifacts, t) ==> SameEntry(t, disk, after))
  }

  lemma {:induction false} FrontWellFormed(artifacts: seq<Artifact>)
    requires WellFormed(artifacts) && artifacts != []
    ensures WellFormed(artifacts[..|artifacts| - 1])
    ensures forall a <- artifacts[..|artifacts| - 1] :: a.target != artifacts[|artifacts| - 1].target
  {
    var front, last := artifacts[..|artifacts| - 1], artifacts[|artifacts| - 1];
    assert artifacts == front + [last];
    MapOne(front, last, TargetOf);
    DistinctGrows(Map(front, TargetOf), last.target);
    MapMembers(front, TargetOf);
  }

  /** One artifact of a commit: its own target becomes as declared or stays, every other stays. */
  lemma {:induction false} OneWrite(disk: Disk, c: Commit, a: Artifact, faults: Faults)
    requires Declared(a) && (a.Write? ==> Writable(a, disk) && SameEntry(a.target, disk, c.disk))
    ensures var d := CommitOne(a, c, faults);
            && (forall t :: (a.Write? ==> t != a.target) ==> SameEntry(t, c.disk, d.disk))
            && (a.Write? ==> Done(a, disk, d.disk) || SameEntry(a.target, disk, d.disk))
            && (c.ok && faults == NO_FAULTS ==> d.ok && (a.Write? ==> Done(a, disk, d.disk)))
  {
  }

  /** A fault-free commit that can succeed does succeed and leaves exactly the declared state. */
  lemma {:induction false} CommitReaches(disk: Disk, artifacts: seq<Artifact>)
    requires WellFormed(artifacts) && Committable(disk, artifacts)
    ensures CommitAll(disk, artifacts, NO_FAULTS).ok
    ensures CommittedState(disk, artifacts, CommitAll(disk, artifacts, NO_FAULTS).disk)
  {
    if artifacts != [] {
      var front, last := artifacts[..|artifacts| - 1], artifacts[|artifacts| - 1];
      FrontWellFormed(artifacts);
      NextPrefix(artifacts, |artifacts| - 1);
      CommitReaches(disk, front);
      assert Untouched(front, last.target);
      OneWrite(disk, CommitAll(disk, front, NO_FAULTS), last, NO_FAULTS);
      Joined(disk, front, last, CommitAll(disk, front, NO_FAULTS).disk, CommitAll(disk, artifacts, NO_FAULTS).disk);
      assert front + [last] == artifacts;
    }
  }

  lemma {:induction false} Joined(disk: Disk, front: seq<Artifact>, last: Artifact, before: Disk, after: Disk)
    requires WellFormed(front + [last]) && WellFormed(front) && Committable(disk, front + [last])
    requires forall a <- front :: a.target != last.target
    requires Between(disk, front, before)
    requires forall t :: (last.Write? ==> t != last.target) ==> SameEntry(t, before, after)
    requires last.Write? ==> Done(last, disk, after) || SameEntry(last.target, disk, after)
    ensures Between(disk, front + [last], after)
    ensures CommittedState(disk, front, before) && (last.Write? ==> Done(last, disk, after)) ==> CommittedState(disk, front + [last], after)
  {
    forall a <- front | a.Write? ensures SameEntry(a.target, before, after) {}
    forall t | Untouched(front + [last], t) ensures Untouched(front, t) && SameEntry(t, before, after) {
      assert last in front + [last];
      forall a <- front ensures a in front + [last] {}
    }
  }

  /** Whatever fault stops a commit, every file is either as before or already as declared. */
  lemma {:induction false} PartialCommit(disk: Disk, artifacts: seq<Artifact>, faults: Faults)
    requires WellFormed(artifacts) && Committable(disk, artifacts)
    ensures Between(disk, artifacts, CommitAll(disk, artifacts, faults).disk)
  {
    if artifacts != [] {
      var front, last := artifacts[..|artifacts| - 1], artifacts[|artifacts| - 1];
      FrontWellFormed(artifacts);
      NextPrefix(artifacts, |artifacts| - 1);
      PartialCommit(disk, front, faults);
      assert Untouched(front, last.target);
      OneWrite(disk, CommitAll(disk, front, faults), last, faults);
      Joined(disk, front, last, CommitAll(disk, front, faults).disk, CommitAll(disk, artifacts, faults).disk);
      assert front + [last] == artifacts;
    }
  }

  lemma {:induction false} SameWrites(disk: Disk, between: Disk, a: Artifact)
    requires a.Write? && Declared(a) && Writable(a, disk)
    requires Done(a, disk, between) || SameEntry(a.target, disk, between)
    ensures Writable(a, between) && Written(a, between) == Written(a, disk)
  {
  }

  lemma {:induction false} StatesAgree(disk: Disk, between: Disk, artifacts: seq<Artifact>, x: Disk, y: Disk)
    requires WellFormed(artifacts) && Committable(disk, artifacts) && Committable(between, artifacts)
    requires Between(disk, artifacts, between)
    requires CommittedState(disk, artifacts, x) && CommittedState(between, artifacts, y)
    ensures x == y
  {
    forall t ensures SameEntry(t, x, y) {
      if !Untouched(artifacts, t) {
        var a :| a in artifacts && a.Write? && a.target == t;
        SameWrites(disk, between, a);
      }
    }
    SameDisk(x, y);
  }

  lemma {:induction false} SameDisk(x: Disk, y: Disk)
    requires forall t :: SameEntry(t, x, y)
    ensures x == y
  {
    forall t ensures (t in x <==> t in y) && (t in x ==> x[t] == y[t]) {
      assert SameEntry(t, x, y);
    }
  }

  /** A commit stopped anywhere by a fault and run again ends in the state of an uninterrupted commit. */
  lemma {:induction false} InterruptedCommitResumes(disk: Disk, artifacts: seq<Artifact>, faults: Faults)
    requires WellFormed(artifacts) && Committable(disk, artifacts)
    ensures var stopped := CommitAll(disk, artifacts, faults).disk;
            CommitAll(stopped, artifacts, NO_FAULTS).ok && CommitAll(stopped, artifacts, NO_FAULTS).disk == CommitAll(disk, artifacts, NO_FAULTS).disk
  {
    var stopped := CommitAll(disk, artifacts, faults).disk;
    PartialCommit(disk, artifacts, faults);
    forall a <- artifacts | a.Write? ensures Writable(a, stopped) {
      SameWrites(disk, stopped, a);
    }
    CommitReaches(disk, artifacts);
    CommitReaches(stopped, artifacts);
    StatesAgree(disk, stopped, artifacts, CommitAll(disk, artifacts, NO_FAULTS).disk, CommitAll(stopped, artifacts, NO_FAULTS).disk);
  }

  /** A process killed after any number of artifacts leaves a prefix run; running again completes it. */
  lemma {:induction false} KilledCommitResumes(disk: Disk, artifacts: seq<Artifact>, k: nat)
    requires WellFormed(artifacts) && Committable(disk, artifacts) && k <= |artifacts|
    ensures var killed := CommitAll(disk, artifacts[..k], NO_FAULTS).disk;
            CommitAll(killed, artifacts, NO_FAULTS).ok && CommitAll(killed, artifacts, NO_FAULTS).disk == CommitAll(disk, artifacts, NO_FAULTS).disk
  {
    var prefix, killed := artifacts[..k], CommitAll(disk, artifacts[..k], NO_FAULTS).disk;
    PrefixWellFormed(artifacts, k);
    CommitReaches(disk, prefix);
    forall a <- artifacts | a.Write? ensures a in prefix || Untouched(prefix, a.target) {
      if a !in prefix { NotInPrefix(artifacts, k, a); }
    }
    assert Between(disk, artifacts, killed) by {
      forall t | Untouched(artifacts, t) ensures Untouched(prefix, t) {}
    }
    forall a <- artifacts | a.Write? ensures Writable(a, killed) {
      SameWrites(disk, killed, a);
    }
    CommitReaches(disk, artifacts);
    CommitReaches(killed, artifacts);
    StatesAgree(disk, killed, artifacts, CommitAll(disk, artifacts, NO_FAULTS).disk, CommitAll(killed, artifacts, NO_FAULTS).disk);
  }

  lemma {:induction false} PrefixWellFormed(artifacts: seq<Artifact>, k: nat)
    requires WellFormed(artifacts) && k <= |artifacts|
    ensures WellFormed(artifacts[..k])
  {
    var targets := Map(artifacts, TargetOf);
    assert Map(artifacts[..k], TargetOf) == targets[..k];
  }

  lemma {:induction false} NotInPrefix(artifacts: seq<Artifact>, k: nat, a: Artifact)
    requires WellFormed(artifacts) && k <= |artifacts| && a in artifacts && a !in artifacts[..k]
    ensures Untouched(artifacts[..k], a.target)
  {
    var i :| 0 <= i < |artifacts| && artifacts[i] == a;
    var targets := Map(artifacts, TargetOf);
    forall b <- artifacts[..k] ensures b.target != a.target {
      var j :| 0 <= j < k && artifacts[j] == b;
      assert targets[j] == b.target && targets[i] == a.target;
    }
  }

  /** Once every write is settled a commit writes nothing, whatever fails. */
  lemma {:induction false} SettledCommitIsIdle(disk: Disk, artifacts: seq<Artifact>, faults: Faults)
    requires forall a <- artifacts :: Declared(a) && (a.Write? ==> Settled(a, disk))
    ensures var c := CommitAll(disk, artifacts, faults);
            c.disk == disk && c.written == 0 && (faults.unreadable == {} ==> c.ok)
  {
    if artifacts != [] {
      SettledCommitIsIdle(disk, artifacts[..|artifacts| - 1], faults);
      assert artifacts[|artifacts| - 1] in artifacts;
    }
  }

  lemma {:induction false} CommittedIsSettled(disk: Disk, artifacts: seq<Artifact>)
    requires WellFormed(artifacts) && Committable(disk, artifacts)
    ensures forall a <- artifacts :: a.Write? ==> Settled(a, CommitAll(disk, artifacts, NO_FAULTS).disk)
  {
    CommitReaches(disk, artifacts);
  }

  /** Committing twice writes nothing the second time. */
  lemma {:induction false} SecondCommitIsIdle(disk: Disk, artifacts: seq<Artifact>, faults: Faults)
    requires WellFormed(artifacts) && Committable(disk, artifacts)
    ensures var after := CommitAll(disk, artifacts, NO_FAULTS).disk;
            var again := CommitAll(after, artifacts, faults);
            again.disk == after && again.written == 0 && (faults.unreadable == {} ==> again.ok)
  {
    CommittedIsSettled(disk, artifacts);
    SettledCommitIsIdle(CommitAll(disk, artifacts, NO_FAULTS).disk, artifacts, faults);
  }

  // -------------------------------------------------------------- deferred deletes

  const MAX_CONFIG_BYTES: nat := 2 * 1024 * 1024

  predicate TooLarge(f: File) { LegacyPool.Utf8Bytes(f.content) > MAX_CONFIG_BYTES }

  datatype Snapshot = Snapshot(target: string, file: File)
  datatype Removal = Removal(disk: Disk, removed: seq<Snapshot>, ok: bool)

  predicate Deferred(a: Artifact) { a.Delete? && a.deferred }

  function DeleteOne(a: Artifact, r: Removal, broken: set<string>): Removal {
    if !r.ok || !Deferred(a) || a.target !in r.disk then r
    else if r.disk[a.target].Foreign? || TooLarge(r.disk[a.target].file) || a.target in broken
    then r.(ok := false)
    else Removal(r.disk - {a.target}, r.removed + [Snapshot(a.target, r.disk[a.target].file)], true)
  }

  /** The loop of removeDeferredArtifacts. */
  function RemoveAll(disk: Disk, artifacts: seq<Artifact>, broken: set<string>): Removal {
    if artifacts == [] then Removal(disk, [], true)
    else DeleteOne(artifacts[|artifacts| - 1], RemoveAll(disk, artifacts[..|artifacts| - 1], broken), broken)
  }

  /** restoreRemoved: write the snapshots back, last one first. */
  function Restored(disk: Disk, removed: seq<Snapshot>): Disk
    decreases |removed|
  {
    if removed == [] then disk
    else
      var last := removed[|removed| - 1];
      Restored(disk[last.target := Regular(last.file)], removed[..|removed| - 1])
  }

  /** Restoration undoes the deletes exactly: content, mode and owner of every file, and nothing else. */
  lemma {:induction false} RestoreUndoesRemoval(disk: Disk, artifacts: seq<Artifact>, broken: set<string>)
    ensures var r := RemoveAll(disk, artifacts, broken); Restored(r.disk, r.removed) == disk
  {
    if artifacts != [] {
      var front, last := artifacts[..|artifacts| - 1], artifacts[|artifacts| - 1];
      RestoreUndoesRemoval(disk, front, broken);
      var r, s := RemoveAll(disk, front, broken), RemoveAll(disk, artifacts, broken);
      if s != r && s.ok {
        var snapshot := Snapshot(last.target, r.disk[last.target].file);
        assert s.removed[..|s.removed| - 1] == r.removed;
        assert s.disk[snapshot.target := Regular(snapshot.file)] == r.disk;
      }
    }
  }

  /** Deferred deletes only delete: what remains is unchanged, and a complete run leaves no target behind. */
  lemma {:induction false} RemovalShape(disk: Disk, artifacts: seq<Artifact>, broken: set<string>)
    ensures var r := RemoveAll(disk, artifacts, broken);
            && (forall t <- r.disk :: t in disk && r.disk[t] == disk[t])
            && (forall t <- disk :: t !in r.disk ==> exists a <- artifacts :: Deferred(a) && a.target == t)
            && (r.ok ==> forall a <- artifacts :: Deferred(a) ==> a.target !in r.disk)
            && (r.removed == [] <==> r.disk == disk)
  {
    if artifacts != [] {
      var front, last := artifacts[..|artifacts| - 1], artifacts[|artifacts| - 1];
      assert artifacts == front + [last];
      RemovalShape(disk, front, broken);
    }
  }

  // ------------------------------------------------------------- said file by file

  /** What a write needs of the disk: a regular file at its target, or none and all the metadata of a new file. */
  predicate FitsDisk(a: Artifact, disk: Disk) {
    a.Write? ==> if a.target in disk then disk[a.target].Regular? else a.mode.Some? && a.owner.Some?
  }

  /** A fault-free commit succeeds exactly when every write fits the disk. */
  lemma {:induction false} CommitDecides(disk: Disk, artifacts: seq<Artifact>)
    requires WellFormed(artifacts)
    ensures CommitAll(disk, artifacts, NO_FAULTS).ok <==> forall a <- artifacts :: FitsDisk(a, disk)
  {
    if artifacts != [] {
      var front, last := artifacts[..|artifacts| - 1], artifacts[|artifacts| - 1];
      FrontWellFormed(artifacts);
      NextPrefix(artifacts, |artifacts| - 1);
      assert artifacts == front + [last];
      CommitDecides(disk, front);
      if CommitAll(disk, front, NO_FAULTS).ok {
        forall a <- front | a.Write? ensures Writable(a, disk) { assert FitsDisk(a, disk); }
        CommitReaches(disk, front);
        assert Untouched(front, last.target);
        LastFits(disk, CommitAll(disk, front, NO_FAULTS), last);
      }
    }
  }

  lemma {:induction false} LastFits(disk: Disk, c: Commit, a: Artifact)
    requires Declared(a) && c.ok && SameEntry(a.target, disk, c.disk)
    ensures CommitOne(a, c, NO_FAULTS).ok <==> FitsDisk(a, disk)
  {
  }

  /** What a fault-free commit leaves at a target: the staged content, and each of mode, uid and gid as declared
      or, where it is not, as it was. */
  lemma {:induction false} CommittedFile(disk: Disk, artifacts: seq<Artifact>, a: Artifact)
    requires WellFormed(artifacts) && Committable(disk, artifacts) && a in artifacts && a.Write?
    ensures var after := CommitAll(disk, artifacts, NO_FAULTS).disk;
            && a.target in after && after[a.target].Regular?
            && var file := after[a.target].file;
            && file.content == a.content
            && file.mode == (if a.mode.Some? then a.mode.value else disk[a.target].file.mode)
            && file.uid == (if a.owner.Some? then a.owner.value.uid else disk[a.target].file.uid)
            && file.gid == (if a.owner.Some? then a.owner.value.gid else disk[a.target].file.gid)
  {
    CommitReaches(disk, artifacts);
  }

  /** Whatever fails, a commit changes nothing but the targets of its artifacts. */
  lemma {:induction false} CommitStaysOnTargets(disk: Disk, artifacts: seq<Artifact>, faults: Faults, t: string)
    requires (forall a <- artifacts :: Declared(a)) && forall a <- artifacts :: a.Write? ==> a.target != t
    ensures SameEntry(t, disk, CommitAll(disk, artifacts, faults).disk)
  {
    if artifacts != [] {
      var front, last := artifacts[..|artifacts| - 1], artifacts[|artifacts| - 1];
      assert artifacts == front + [last];
      CommitStaysOnTargets(disk, front, faults, t);
    }
  }

  /** What stands in the way of one deferred delete. */
  predicate Removable(disk: Disk, t: string, broken: set<string>) {
    t in disk ==> disk[t].Regular? && LegacyPool.Utf8Bytes(disk[t].file.content) <= 2_097_152 && t !in broken
  }

  /** The deletes succeed exactly when every deferred target that exists is a regular file of at most 2 MiB that
      can be unlinked, and then exactly those targets are gone. */
  lemma {:induction false} RemovalDecides(disk: Disk, artifacts: seq<Artifact>, broken: set<string>)
    requires WellFormed(artifacts)
    ensures var r := RemoveAll(disk, artifacts, broken);
            && (r.ok <==> forall a <- artifacts :: a.Delete? && a.deferred ==> Removable(disk, a.target, broken))
            && (r.ok ==> forall t :: t in r.disk <==> t in disk && forall a <- artifacts :: a.Delete? && a.deferred ==> a.target != t)
  {
    if artifacts != [] {
      var front, last := artifacts[..|artifacts| - 1], artifacts[|artifacts| - 1];
      assert artifacts == front + [last];
      FrontWellFormed(artifacts);
      RemovalDecides(disk, front, broken);
      RemovalShape(disk, front, broken);
    }
  }

  // ------------------------------------------------------------------------ host

  predicate TouchesNginx(artifacts: seq<Artifact>) {
    exists a <- artifacts :: "/etc/nginx/" <= a.target
  }

  /** Outcomes of the service calls, taken as given: PHP-FPM reloads, socket waits and the Nginx reload. */
  datatype Services = Services(phpReloads: bool, socketsAppear: bool, nginxReloads: bool)

  class RuntimeHost {
    var files: Disk

    constructor (initial: Disk)
      ensures files == initial
    {
      files := initial;
    }

    /** commitRuntimeArtifacts; `done` is false when it threw. */
    method CommitArtifacts(artifacts: seq<Artifact>, faults: Faults) returns (done: bool, committed: nat)
      requires forall a <- artifacts :: Declared(a)
      modifies this
      ensures Commit(files, done, committed) == CommitAll(old(files), artifacts, faults)
    {
      committed := 0;
      for i := 0 to |artifacts|
        invariant Commit(files, true, committed) == CommitAll(old(files), artifacts[..i], faults)
      {
        var a := artifacts[i];
        CommitStep(old(files), artifacts, i, faults);
        if a.Write? {
          if a.target in faults.unreadable || (a.target in files && files[a.target].Foreign?) {
            CommitStopped(old(files), artifacts, i, faults);
            return false, committed;
          }
          if !Settled(a, files) {
            if !Writable(a, files) || a.target in faults.unwritable {
              CommitStopped(old(files), artifacts, i, faults);
              return false, committed;
            }
            files := files[a.target := Regular(Written(a, files))];
            committed := committed + 1;
          }
        }
      }
      WholePrefix(artifacts);
      done := true;
    }

    /** assertCommittedArtifacts, with the digest as a parameter. */
    method AssertCommitted(artifacts: seq<Artifact>, digest: string -> string) returns (ok: bool)
      ensures ok <==> forall a <- artifacts :: a.Write? ==>
                        a.target in files && files[a.target].Regular?
                        && digest(files[a.target].file.content) == digest(a.content) && MetadataMatches(a, files[a.target].file)
    {
      for i := 0 to |artifacts|
        invariant forall j | 0 <= j < i :: artifacts[j].Write? ==>
                    artifacts[j].target in files && files[artifacts[j].target].Regular?
                    && digest(files[artifacts[j].target].file.content) == digest(artifacts[j].content)
                    && MetadataMatches(artifacts[j], files[artifacts[j].target].file)
      {
        var a := artifacts[i];
        if a.Write? {
          if a.target !in files || files[a.target].Foreign? { return false; }
          if digest(files[a.target].file.content) != digest(a.content) { return false; }
          if !MetadataMatches(a, files[a.target].file) { return false; }
        }
      }
      ok := true;
    }

    /** switchRuntime: commit, assert, then reload what the writes touch. */
    method SwitchRuntime(artifacts: seq<Artifact>, digest: string -> string, faults: Faults,
                         touchesPhp: bool, services: Services) returns (done: bool)
      requires WellFormed(artifacts)
      modifies this
      ensures files == CommitAll(old(files), artifacts, faults).disk
      ensures done <==> CommitAll(old(files), artifacts, faults).ok && (touchesPhp ==> services.phpReloads)
                        && services.socketsAppear && (TouchesNginx(Filter(artifacts, IsWrite)) ==> services.nginxReloads)
    {
      var committed;
      done, committed := CommitArtifacts(artifacts, faults);
      if !done { return false; }
      CommitLeavesSettled(old(files), artifacts, faults);
      var asserted := AssertCommitted(artifacts, digest);
      assert asserted;
      done := (touchesPhp ==> services.phpReloads) && services.socketsAppear
              && (TouchesNginx(Filter(artifacts, IsWrite)) ==> services.nginxReloads);
    }

    method RemoveDeferred(artifacts: seq<Artifact>, broken: set<string>) returns (removed: seq<Snapshot>, ok: bool)
      modifies this
      ensures Removal(files, removed, ok) == RemoveAll(old(files), artifacts, broken)
    {
      removed := [];
      for i := 0 to |artifacts|
        invariant Removal(files, removed, true) == RemoveAll(old(files), artifacts[..i], broken)
      {
        var a := artifacts[i];
        RemovalStep(old(files), artifacts, i, broken);
        if Deferred(a) && a.target in files {
          if files[a.target].Foreign? || TooLarge(files[a.target].file) || a.target in broken {
            RemovalStopped(old(files), artifacts, i, broken);
            return removed, false;
          }
          var snapshot := Snapshot(a.target, files[a.target].file);
          files := files - {a.target};
          removed := removed + [snapshot];
        }
      }
      WholePrefix(artifacts);
      ok := true;
    }

    method RestoreRemoved(removed: seq<Snapshot>)
      modifies this
      ensures files == Restored(old(files), removed)
    {
      var i := |removed|;
      WholePrefix(removed);
      while i > 0
        invariant 0 <= i <= |removed|
        invariant Restored(files, removed[..i]) == Restored(old(files), removed)
      {
        i := i - 1;
        assert removed[..i + 1][..i] == removed[..i];
        files := files[removed[i].target := Regular(removed[i].file)];
      }
    }

    /** cleanupRuntime: only a failure after all deletes is rolled back. */
    method CleanupRuntime(artifacts: seq<Artifact>, broken: set<string>, touchesPhp: bool, services: Services) returns (done: bool)
      modifies this
      ensures var r := RemoveAll(old(files), artifacts, broken);
              var deletes := Filter(artifacts, Deferred);
              var healthy := (touchesPhp ==> services.phpReloads) && services.socketsAppear
                             && (TouchesNginx(deletes) ==> services.nginxReloads);
              && (done <==> deletes == [] || (r.ok && healthy))
              && files == if deletes == [] then old(files) else if r.ok && !healthy then old(files) else r.disk
    {
      var deletes := Filter(artifacts, Deferred);
      if deletes == [] { return true; }
      var removed, ok := RemoveDeferred(artifacts, broken);
      if !ok { return false; }
      if (touchesPhp && !services.phpReloads) || !services.socketsAppear || (TouchesNginx(deletes) && !services.nginxReloads) {
        RestoreUndoesRemoval(old(files), artifacts, broken);
        RestoreRemoved(removed);
        return false;
      }
      done := true;
    }
  }

  predicate IsWrite(a: Artifact) { a.Write? }

  lemma {:induction false} CommitStep(disk: Disk, artifacts: seq<Artifact>, i: nat, faults: Faults)
    requires i < |artifacts| && forall a <- artifacts :: Declared(a)
    ensures CommitAll(disk, artifacts[..i + 1], faults) == CommitOne(artifacts[i], CommitAll(disk, artifacts[..i], faults), faults)
  {
    assert artifacts[..i + 1][..i] == artifacts[..i];
  }

  lemma {:induction false} CommitStopped(disk: Disk, artifacts: seq<Artifact>, i: nat, faults: Faults)
    requires i < |artifacts| && forall a <- artifacts :: Declared(a)
    requires !CommitAll(disk, artifacts[..i + 1], faults).ok
    ensures CommitAll(disk, artifacts, faults) == CommitAll(disk, artifacts[..i + 1], faults)
    decreases |artifacts|
  {
    if i + 1 == |artifacts| {
      WholePrefix(artifacts);
    } else {
      var front := artifacts[..|artifacts| - 1];
      assert front[..i + 1] == artifacts[..i + 1];
      CommitStopped(disk, front, i, faults);
    }
  }

  /** A commit that reports success has settled every write, so the assertion after it cannot fail. */
  lemma {:induction false} CommitLeavesSettled(disk: Disk, artifacts: seq<Artifact>, faults: Faults)
    requires WellFormed(artifacts) && CommitAll(disk, artifacts, faults).ok
    ensures forall a <- artifacts :: a.Write? ==> Settled(a, CommitAll(disk, artifacts, faults).disk)
  {
    if artifacts != [] {
      var front, last := artifacts[..|artifacts| - 1], artifacts[|artifacts| - 1];
      FrontWellFormed(artifacts);
      assert artifacts == front + [last];
      OneMoreSettled(CommitAll(disk, front, faults), last, faults);
      CommitLeavesSettled(disk, front, faults);
      forall a <- front | a.Write? ensures Settled(a, CommitAll(disk, artifacts, faults).disk) {
        assert SameEntry(a.target, CommitAll(disk, front, faults).disk, CommitAll(disk, artifacts, faults).disk);
      }
    }
  }

  lemma {:induction false} OneMoreSettled(c: Commit, a: Artifact, faults: Faults)
    requires Declared(a) && CommitOne(a, c, faults).ok
    ensures var d := CommitOne(a, c, faults);
            && c.ok && (a.Write? ==> Settled(a, d.disk))
            && forall t :: t != a.target ==> SameEntry(t, c.disk, d.disk)
  {
  }

  lemma {:induction false} RemovalStep(disk: Disk, artifacts: seq<Artifact>, i: nat, broken: set<string>)
    requires i < |artifacts|
    ensures RemoveAll(disk, artifacts[..i + 1], broken) == DeleteOne(artifacts[i], RemoveAll(disk, artifacts[..i], broken), broken)
  {
    assert artifacts[..i + 1][..i] == artifacts[..i];
  }

  lemma {:induction false} RemovalStopped(disk: Disk, artifacts: seq<Artifact>, i: nat, broken: set<string>)
    requires i < |artifacts| && !RemoveAll(disk, artifacts[..i + 1], broken).ok
    ensures RemoveAll(disk, artifacts, broken) == RemoveAll(disk, artifacts[..i + 1], broken)
    decreases |artifacts|
  {
    if i + 1 == |artifacts| {
      WholePrefix(artifacts);
    } else {
      var front := artifacts[..|artifacts| - 1];
      assert front[..i + 1] == artifacts[..i + 1];
      RemovalStopped(disk, front, i, broken);
    }
  }

  /** A cleanup that fails while it is still deleting is not rolled back: the files are as before exactly
      when nothing had been deleted yet. */
  lemma {:induction false} FailedDeletesStay(disk: Disk, artifacts: seq<Artifact>, broken: set<string>)
    requires !RemoveAll(disk, artifacts, broken).ok
    ensures RemoveAll(disk, artifacts, broken).disk == disk <==> NothingDeletedBefore(disk, artifacts, broken)
  {
    RemovalShape(disk, artifacts, broken);
    FirstRefusal(disk, artifacts, broken);
  }

  /** A deferred delete that cannot be carried out. */
  predicate Undeletable(disk: Disk, a: Artifact, broken: set<string>) {
    a.target in disk && (disk[a.target].Foreign? || TooLarge(disk[a.target].file) || a.target in broken)
  }

  /** The first deferred delete with anything to delete is the one that fails. */
  ghost predicate NothingDeletedBefore(disk: Disk, artifacts: seq<Artifact>, broken: set<string>) {
    exists k | 0 <= k < |artifacts| :: Deferred(artifacts[k]) && Undeletable(disk, artifacts[k], broken)
                                       && forall j | 0 <= j < k :: Deferred(artifacts[j]) ==> artifacts[j].target !in disk
  }

  lemma {:induction false} FirstRefusal(disk: Disk, artifacts: seq<Artifact>, broken: set<string>)
    ensures NothingDeletedBefore(disk, artifacts, broken)
       <==> !RemoveAll(disk, artifacts, broken).ok && RemoveAll(disk, artifacts, broken).removed == []
    ensures RemoveAll(disk, artifacts, broken).ok && RemoveAll(disk, artifacts, broken).removed == []
            ==> forall a <- artifacts :: Deferred(a) ==> a.target !in disk
  {
    if artifacts != [] {
      var front, last := artifacts[..|artifacts| - 1], artifacts[|artifacts| - 1];
      assert artifacts == front + [last];
      FirstRefusal(disk, front, broken);
      RemovalShape(disk, front, broken);
      if NothingDeletedBefore(disk, front, broken) {
        var k :| 0 <= k < |front| && Deferred(front[k]) && Undeletable(disk, front[k], broken)
                 && forall j | 0 <= j < k :: Deferred(front[j]) ==> front[j].target !in disk;
        assert artifacts[k] == front[k];
        assert forall j | 0 <= j < k :: artifacts[j] == front[j];
      }
      if NothingDeletedBefore(disk, artifacts, broken) && !NothingDeletedBefore(disk, front, broken) {
        var k :| 0 <= k < |artifacts| && Deferred(artifacts[k]) && Undeletable(disk, artifacts[k], broken)
                 && forall j | 0 <= j < k :: Deferred(artifacts[j]) ==> artifacts[j].target !in disk;
        assert forall j | 0 <= j < |front| :: artifacts[j] == front[j];
      }
    }
  }
}
