/** Render, switch, clean up, render again: what a runtime cutover does to the host's files
    (migrations/runtime-renderer.ts:519-676, migrations/runtime-apply.ts:60-94, 146-172). */
module RuntimeReconcile {
  import opened Common
  import opened RuntimeApply
  import opened RuntimeRender
  import LegacyPaths

  // ------------------------------------------------------------------ the manifest

  ghost predicate StaleTarget(plan: Plan, disk: Disk, t: string, ownerOf: string -> Option<string>) {
    StaleTree(plan, disk, t) || StalePool(plan, disk, t, ownerOf)
  }

  function Pending(plan: Plan, disk: Disk): seq<Artifact> { Concat(Writes(plan), PendingIn(disk)) }

  ghost predicate ArtifactOf(plan: Plan, disk: Disk, ownerOf: string -> Option<string>, a: Artifact) {
    a in Pending(plan, disk) || (a == Delete(a.target, true) && StaleTarget(plan, disk, a.target, ownerOf))
  }

  /** The manifest holds one artifact per outdated desired file and one deferred delete per stale file. */
  ghost predicate Manifest(plan: Plan, disk: Disk, ownerOf: string -> Option<string>, artifacts: seq<Artifact>) {
    Distinct(Map(artifacts, TargetOf)) && forall a :: a in artifacts <==> ArtifactOf(plan, disk, ownerOf, a)
  }

  ghost predicate TreesRegular(plan: Plan, disk: Disk) {
    forall s, t | s in plan.sites && t in disk && InTree(s.name, t) :: disk[t].Regular?
  }

  /** When rendering does not stop with an error. */
  ghost predicate Renderable(plan: Plan, disk: Disk, ownerOf: string -> Option<string>) {
    && (forall s <- plan.sites :: s.linkValid)
    && All(Writes(plan), PlaceableIn(disk))
    && TreesRegular(plan, disk)
    && Distinct(Map(Pools(plan), PoolTarget))
    && forall t <- disk :: !PoolCollides(plan, disk, t, ownerOf)
  }

  // ---------------------------------------------------------------- placement rules

  ghost predicate OutsideTrees(plan: Plan, t: string) { forall s <- plan.sites :: !InTree(s.name, t) }

  ghost predicate NamesApart(plan: Plan) {
    && (forall s <- plan.sites :: '/' !in s.name)
    && (forall i, j | 0 <= i < j < |plan.sites| :: plan.sites[i].name != plan.sites[j].name)
  }

  ghost predicate DomainPlaced(s: SiteRender, d: DomainRender, ownerOf: string -> Option<string>) {
    && (forall c <- d.chunks :: InTree(s.name, c.target))
    && InTree(s.name, d.customTarget)
    && (d.pool.Some? ==> InPools(PoolTarget(d.pool.value)) && d.pool.value.domainId == d.id
                         && ownerOf(d.pool.value.file.content) == Some(d.id))
  }

  /** What the templates are trusted with: each file goes to its own place, and a pool names its owner. */
  ghost predicate WellPlaced(plan: Plan, ownerOf: string -> Option<string>) {
    && Distinct(Map(Writes(plan), DesiredTarget))
    && NamesApart(plan)
    && (forall s <- plan.sites :: OutsideTrees(plan, s.main.target) && !InPools(s.main.target))
    && (forall w <- plan.tail :: OutsideTrees(plan, w.target) && !InPools(w.target))
    && (forall s, d | s in plan.sites && d in s.domains :: DomainPlaced(s, d, ownerOf))
  }

  lemma {:induction false} NginxIsNotPool(rest: string)
    ensures !InPools("/etc/nginx/" + rest)
  {
    var t := "/etc/nginx/" + rest;
    assert t == "" + "/" + ("etc" + "/" + ("nginx" + "/" + rest));
    LegacyPaths.SplitPrefix("", "etc" + "/" + ("nginx" + "/" + rest));
    LegacyPaths.SplitPrefix("etc", "nginx" + "/" + rest);
    LegacyPaths.SplitPrefix("nginx", rest);
  }

  lemma {:induction false} TreeIsNotPool(name: string, t: string)
    requires InTree(name, t)
    ensures !InPools(t)
  {
    assert t == "/etc/nginx/" + t[|"/etc/nginx/"|..];
    NginxIsNotPool(t[|"/etc/nginx/"|..]);
  }

  lemma {:induction false} TreesDisjoint(a: string, b: string, t: string)
    requires '/' !in a && '/' !in b && InTree(a, t) && InTree(b, t)
    ensures a == b
  {
    var root := "/etc/nginx/meowbox/";
    var tail := t[|root|..];
    assert a + "/" <= tail && b + "/" <= tail;
    var restA, restB := tail[|a| + 1..], tail[|b| + 1..];
    assert tail == a + "/" + restA && tail == b + "/" + restB;
    LegacyPaths.SplitPrefix(a, restA);
    LegacyPaths.SplitPrefix(b, restB);
    assert LegacyPaths.Split(tail)[0] == a && LegacyPaths.Split(tail)[0] == b;
  }

  // ----------------------------------------------------- desired files are never stale

  lemma {:induction false} DomainDesireIsPlaced(s: SiteRender, d: DomainRender, disk: Disk, t: string, ownerOf: string -> Option<string>)
    requires DomainPlaced(s, d, ownerOf) && DomainDesires(d, disk, t)
    ensures InTree(s.name, t) || (d.pool.Some? && PoolTarget(d.pool.value) == t)
  {
    MapMembers(DomainWrites(d), DesiredTarget);
  }

  lemma {:induction false} PoolIsListed(plan: Plan, s: SiteRender, d: DomainRender)
    requires s in plan.sites && d in s.domains && d.pool.Some?
    ensures d.pool.value in Pools(plan)
  {
    ConcatMembers(s.domains, DomainPools);
    ConcatMembers(plan.sites, SitePools);
    assert d.pool.value in DomainPools(d);
    assert d.pool.value in SitePools(s);
  }

  /** A desired target is either in its own site's tree, or a desired pool, or outside both areas. */
  lemma {:induction false} DesireIsPlaced(plan: Plan, disk: Disk, ownerOf: string -> Option<string>, s: SiteRender, t: string)
    requires WellPlaced(plan, ownerOf) && s in plan.sites && SiteDesires(s, disk, t)
    ensures InTree(s.name, t) || PoolDesired(plan, t) || (OutsideTrees(plan, t) && !InPools(t))
    ensures PoolDesired(plan, t) && !InTree(s.name, t) ==> OutsideTrees(plan, t) || !InPools(t)
  {
    if t != s.main.target {
      var d :| d in s.domains && DomainDesires(d, disk, t);
      DomainDesireIsPlaced(s, d, disk, t, ownerOf);
      if !InTree(s.name, t) {
        PoolIsListed(plan, s, d);
        assert PoolTarget(d.pool.value) == t;
        forall r <- plan.sites ensures !InTree(r.name, t) {
          if InTree(r.name, t) { TreeIsNotPool(r.name, t); }
        }
      }
    }
  }

  lemma {:induction false} DesiredIsNotStaleTree(plan: Plan, disk: Disk, ownerOf: string -> Option<string>, i: nat, t: string)
    requires WellPlaced(plan, ownerOf) && i < |plan.sites| && SiteDesires(plan.sites[i], disk, t)
    ensures !StaleTree(plan, disk, t)
  {
    DesireIsPlaced(plan, disk, ownerOf, plan.sites[i], t);
    forall k | 0 <= k < |plan.sites| && InTree(plan.sites[k].name, t) ensures DesiredUpTo(plan.sites, k + 1, disk, t) {
      TreeIsNotPool(plan.sites[k].name, t);
      SiteOfTree(plan, disk, ownerOf, i, k, t);
    }
  }

  lemma {:induction false} SiteOfTree(plan: Plan, disk: Disk, ownerOf: string -> Option<string>, i: nat, k: nat, t: string)
    requires WellPlaced(plan, ownerOf) && i < |plan.sites| && k < |plan.sites|
    requires SiteDesires(plan.sites[i], disk, t) && InTree(plan.sites[k].name, t)
    ensures i == k
  {
    var s := plan.sites[i];
    TreeIsNotPool(plan.sites[k].name, t);
    assert t != s.main.target;
    var d :| d in s.domains && DomainDesires(d, disk, t);
    DomainDesireIsPlaced(s, d, disk, t, ownerOf);
    TreesDisjoint(s.name, plan.sites[k].name, t);
  }

  lemma {:induction false} DesiredIsNotStale(plan: Plan, disk: Disk, ownerOf: string -> Option<string>, i: nat, t: string)
    requires WellPlaced(plan, ownerOf) && i < |plan.sites| && SiteDesires(plan.sites[i], disk, t)
    ensures !StaleTarget(plan, disk, t, ownerOf)
  {
    DesiredIsNotStaleTree(plan, disk, ownerOf, i, t);
    DesireIsPlaced(plan, disk, ownerOf, plan.sites[i], t);
    if InTree(plan.sites[i].name, t) {
      TreeIsNotPool(plan.sites[i].name, t);
    }
  }

  lemma {:induction false} WriteIsDesired(plan: Plan, disk: Disk, w: Desired)
    requires w in Writes(plan)
    ensures w in plan.tail || exists i | 0 <= i < |plan.sites| :: SiteDesires(plan.sites[i], disk, w.target)
  {
    ConcatMembers(plan.sites, SiteWrites);
    if w !in plan.tail {
      assert w in Concat(plan.sites, SiteWrites);
      var s :| s in plan.sites && w in SiteWrites(s);
      var i :| 0 <= i < |plan.sites| && plan.sites[i] == s;
      SiteWriteIsDesired(s, disk, w);
    }
  }

  lemma {:induction false} SiteWriteIsDesired(s: SiteRender, disk: Disk, w: Desired)
    requires w in SiteWrites(s)
    ensures SiteDesires(s, disk, w.target)
  {
    ConcatMembers(s.domains, DomainWrites);
    if w != s.main {
      assert w in Concat(s.domains, DomainWrites);
      var d :| d in s.domains && w in DomainWrites(d);
      MapMembers(DomainWrites(d), DesiredTarget);
      assert DomainDesires(d, disk, w.target);
    }
  }

  /** No file the plan writes is ever scheduled for deletion. */
  lemma {:induction false} WritesAreNotStale(plan: Plan, disk: Disk, ownerOf: string -> Option<string>, w: Desired)
    requires WellPlaced(plan, ownerOf) && w in Writes(plan)
    ensures !StaleTarget(plan, disk, w.target, ownerOf)
  {
    WriteIsDesired(plan, disk, w);
    if i: nat :| i < |plan.sites| && SiteDesires(plan.sites[i], disk, w.target) {
      DesiredIsNotStale(plan, disk, ownerOf, i, w.target);
    }
  }

  // -------------------------------------------------------------- after the cutover

  lemma {:induction false} PendingShape(plan: Plan, disk: Disk, a: Artifact)
    ensures a in Pending(plan, disk) <==> exists w <- Writes(plan) :: !UpToDate(w, disk) && a == WriteOf(w, disk)
  {
    ConcatMembers(Writes(plan), PendingIn(disk));
    if w :| w in Writes(plan) && !UpToDate(w, disk) && a == WriteOf(w, disk) {
      assert a in PendingIn(disk)(w);
    }
    if a in Pending(plan, disk) {
      var w := PieceOf(Writes(plan), PendingIn(disk), a);
    }
  }

  lemma {:induction false} ManifestIsSound(plan: Plan, disk: Disk, ownerOf: string -> Option<string>, artifacts: seq<Artifact>)
    requires Manifest(plan, disk, ownerOf, artifacts) && Renderable(plan, disk, ownerOf)
    ensures WellFormed(artifacts) && Committable(disk, artifacts)
  {
    forall a <- artifacts ensures Declared(a) && (a.Write? ==> Writable(a, disk)) {
      assert ArtifactOf(plan, disk, ownerOf, a);
      PendingShape(plan, disk, a);
      if a.Write? {
        var w :| w in Writes(plan) && !UpToDate(w, disk) && a == WriteOf(w, disk);
        assert PlaceableIn(disk)(w);
      }
    }
  }

  /** The files after a switch and a cleanup without faults. */
  ghost function Cutover(disk: Disk, artifacts: seq<Artifact>): Disk
    requires forall a <- artifacts :: Declared(a)
  {
    RemoveAll(CommitAll(disk, artifacts, NO_FAULTS).disk, artifacts, {}).disk
  }

  ghost predicate CleanupSucceeds(disk: Disk, artifacts: seq<Artifact>)
    requires forall a <- artifacts :: Declared(a)
  {
    RemoveAll(CommitAll(disk, artifacts, NO_FAULTS).disk, artifacts, {}).ok
  }

  /** What the cutover does to one target. */
  ghost predicate CutOver(plan: Plan, disk: Disk, ownerOf: string -> Option<string>, after: Disk, t: string) {
    && (forall w <- Writes(plan) :: w.target == t ==> FileExists(after, t) && after[t].file.content == w.content)
    && (StaleTarget(plan, disk, t, ownerOf) ==> t !in after)
    && (t !in Map(Writes(plan), DesiredTarget) && !StaleTarget(plan, disk, t, ownerOf) ==> SameEntry(t, disk, after))
  }

  lemma {:induction false} StaleIsDeleted(plan: Plan, disk: Disk, ownerOf: string -> Option<string>, artifacts: seq<Artifact>, t: string)
    requires Manifest(plan, disk, ownerOf, artifacts)
    ensures (exists a <- artifacts :: Deferred(a) && a.target == t) <==> StaleTarget(plan, disk, t, ownerOf)
  {
    if StaleTarget(plan, disk, t, ownerOf) {
      assert ArtifactOf(plan, disk, ownerOf, Delete(t, true));
      assert Deferred(Delete(t, true));
    }
    if a :| a in artifacts && Deferred(a) && a.target == t {
      assert ArtifactOf(plan, disk, ownerOf, a);
      PendingShape(plan, disk, a);
    }
  }

  lemma {:induction false} WriteLands(plan: Plan, disk: Disk, ownerOf: string -> Option<string>, artifacts: seq<Artifact>, w: Desired)
    requires WellPlaced(plan, ownerOf) && Renderable(plan, disk, ownerOf) && Manifest(plan, disk, ownerOf, artifacts)
    requires w in Writes(plan) && forall a <- artifacts :: Declared(a)
    ensures FileExists(Cutover(disk, artifacts), w.target) && Cutover(disk, artifacts)[w.target].file.content == w.content
  {
    ManifestIsSound(plan, disk, ownerOf, artifacts);
    CommitReaches(disk, artifacts);
    var committed := CommitAll(disk, artifacts, NO_FAULTS).disk;
    WritesAreNotStale(plan, disk, ownerOf, w);
    StaleIsDeleted(plan, disk, ownerOf, artifacts, w.target);
    RemovalShape(committed, artifacts, {});
    PendingShape(plan, disk, WriteOf(w, disk));
    if UpToDate(w, disk) {
      NoOtherWrite(plan, disk, ownerOf, artifacts, w);
      assert SameEntry(w.target, disk, committed);
    } else {
      assert ArtifactOf(plan, disk, ownerOf, WriteOf(w, disk));
      assert Done(WriteOf(w, disk), disk, committed);
    }
  }

  lemma {:induction false} SameDesired(writes: seq<Desired>, v: Desired, w: Desired)
    requires Distinct(Map(writes, DesiredTarget)) && v in writes && w in writes && v.target == w.target
    ensures v == w
  {
    var i :| 0 <= i < |writes| && writes[i] == v;
    var j :| 0 <= j < |writes| && writes[j] == w;
    var targets := Map(writes, DesiredTarget);
    assert targets[i] == v.target && targets[j] == w.target;
  }

  lemma {:induction false} NoOtherWrite(plan: Plan, disk: Disk, ownerOf: string -> Option<string>, artifacts: seq<Artifact>, w: Desired)
    requires WellPlaced(plan, ownerOf) && Manifest(plan, disk, ownerOf, artifacts)
    requires w in Writes(plan) && UpToDate(w, disk)
    ensures Untouched(artifacts, w.target)
  {
    forall a <- artifacts | a.Write? ensures a.target != w.target {
      assert ArtifactOf(plan, disk, ownerOf, a);
      PendingShape(plan, disk, a);
      var v :| v in Writes(plan) && !UpToDate(v, disk) && a == WriteOf(v, disk);
      if v.target == w.target {
        SameDesired(Writes(plan), v, w);
      }
    }
  }

  lemma {:induction false} OthersStay(plan: Plan, disk: Disk, ownerOf: string -> Option<string>, artifacts: seq<Artifact>, t: string)
    requires Renderable(plan, disk, ownerOf) && Manifest(plan, disk, ownerOf, artifacts)
    requires (forall a <- artifacts :: Declared(a)) && t !in Map(Writes(plan), DesiredTarget) && !StaleTarget(plan, disk, t, ownerOf)
    ensures SameEntry(t, disk, Cutover(disk, artifacts))
  {
    ManifestIsSound(plan, disk, ownerOf, artifacts);
    CommitReaches(disk, artifacts);
    var committed := CommitAll(disk, artifacts, NO_FAULTS).disk;
    MapMembers(Writes(plan), DesiredTarget);
    forall a <- artifacts | a.Write? ensures a.target != t {
      assert ArtifactOf(plan, disk, ownerOf, a);
      PendingShape(plan, disk, a);
    }
    assert SameEntry(t, disk, committed);
    StaleIsDeleted(plan, disk, ownerOf, artifacts, t);
    RemovalShape(committed, artifacts, {});
  }

  /** After render, switch and cleanup every desired file holds its rendered content, every stale file is
      gone, and every other file is as it was. */
  lemma {:induction false} CutoverReconciles(plan: Plan, disk: Disk, ownerOf: string -> Option<string>, artifacts: seq<Artifact>)
    requires WellPlaced(plan, ownerOf) && Renderable(plan, disk, ownerOf) && Manifest(plan, disk, ownerOf, artifacts)
    requires (forall a <- artifacts :: Declared(a)) && CleanupSucceeds(disk, artifacts)
    ensures forall t :: CutOver(plan, disk, ownerOf, Cutover(disk, artifacts), t)
    ensures forall a <- artifacts :: Deferred(a) ==> a.target !in Map(Writes(plan), DesiredTarget)
    ensures forall a, i | a in artifacts && Deferred(a) && 0 <= i < |plan.sites| :: !SiteDesires(plan.sites[i], disk, a.target)
  {
    var after := Cutover(disk, artifacts);
    var committed := CommitAll(disk, artifacts, NO_FAULTS).disk;
    RemovalShape(committed, artifacts, {});
    MapMembers(Writes(plan), DesiredTarget);
    forall t ensures CutOver(plan, disk, ownerOf, after, t) {
      forall w <- Writes(plan) | w.target == t ensures FileExists(after, t) && after[t].file.content == w.content {
        WriteLands(plan, disk, ownerOf, artifacts, w);
      }
      StaleIsDeleted(plan, disk, ownerOf, artifacts, t);
      if t !in Map(Writes(plan), DesiredTarget) && !StaleTarget(plan, disk, t, ownerOf) {
        OthersStay(plan, disk, ownerOf, artifacts, t);
      }
    }
    forall a <- artifacts | Deferred(a) ensures a.target !in Map(Writes(plan), DesiredTarget) {
      StaleIsDeleted(plan, disk, ownerOf, artifacts, a.target);
      if w :| w in Writes(plan) && w.target == a.target {
        WritesAreNotStale(plan, disk, ownerOf, w);
      }
    }
    DeletesSpareDesires(plan, disk, ownerOf, artifacts);
  }

  /** Nothing a site asks for is deleted, a hand-written chunk that is merely kept included. */
  lemma {:induction false} DeletesSpareDesires(plan: Plan, disk: Disk, ownerOf: string -> Option<string>, artifacts: seq<Artifact>)
    requires WellPlaced(plan, ownerOf) && Manifest(plan, disk, ownerOf, artifacts)
    ensures forall a, i | a in artifacts && Deferred(a) && 0 <= i < |plan.sites| :: !SiteDesires(plan.sites[i], disk, a.target)
  {
    forall a, i | a in artifacts && Deferred(a) && 0 <= i < |plan.sites| ensures !SiteDesires(plan.sites[i], disk, a.target) {
      StaleIsDeleted(plan, disk, ownerOf, artifacts, a.target);
      if SiteDesires(plan.sites[i], disk, a.target) {
        DesiredIsNotStale(plan, disk, ownerOf, i, a.target);
      }
    }
  }

  // ------------------------------------------------------- the same, part by part

  /** What a plan asks for, read off its fields: main files, chunks, custom chunks, pool files, the tail. */
  ghost predicate Asked(plan: Plan, w: Desired) {
    w in plan.tail || exists s | s in plan.sites :: AskedBySite(s, w)
  }

  ghost predicate AskedBySite(s: SiteRender, w: Desired) {
    w == s.main || exists d | d in s.domains :: AskedByDomain(d, w)
  }

  predicate AskedByDomain(d: DomainRender, w: Desired) {
    || w in d.chunks
    || (d.custom.Some? && w.target == d.customTarget && w.content == d.custom.value)
    || (d.pool.Some? && w == d.pool.value.file)
  }

  ghost predicate AskedTarget(plan: Plan, t: string) { exists w :: Asked(plan, w) && w.target == t }

  /** A hand-written chunk stands where a domain renders none. */
  ghost predicate HandWritten(plan: Plan, disk: Disk, t: string) {
    FileExists(disk, t) && exists s, d :: s in plan.sites && d in s.domains && d.custom == None && d.customTarget == t
  }

  lemma {:induction false} DomainWritesAsked(d: DomainRender, w: Desired)
    ensures w in DomainWrites(d) <==> AskedByDomain(d, w)
  {
    var custom := if d.custom.Some? then [Desired(d.customTarget, d.custom.value)] else [];
    var pool := if d.pool.Some? then [d.pool.value.file] else [];
    assert DomainWrites(d) == d.chunks + custom + pool;
  }

  lemma {:induction false} SiteWritesAsked(s: SiteRender, w: Desired)
    ensures w in SiteWrites(s) <==> AskedBySite(s, w)
  {
    ConcatMembers(s.domains, DomainWrites);
    forall d <- s.domains ensures w in DomainWrites(d) <==> AskedByDomain(d, w) { DomainWritesAsked(d, w); }
    assert SiteWrites(s) == [s.main] + Concat(s.domains, DomainWrites);
  }

  lemma {:induction false} WritesAreAsked(plan: Plan, w: Desired)
    ensures w in Writes(plan) <==> Asked(plan, w)
  {
    ConcatMembers(plan.sites, SiteWrites);
    forall s <- plan.sites ensures w in SiteWrites(s) <==> AskedBySite(s, w) { SiteWritesAsked(s, w); }
  }

  lemma {:induction false} TargetsAreAsked(plan: Plan, t: string)
    ensures t in Map(Writes(plan), DesiredTarget) <==> AskedTarget(plan, t)
  {
    MapMembers(Writes(plan), DesiredTarget);
    forall w ensures w in Writes(plan) <==> Asked(plan, w) { WritesAreAsked(plan, w); }
  }

  lemma {:induction false} DomainDesireIsAsked(d: DomainRender, disk: Disk, t: string)
    ensures DomainDesires(d, disk, t) <==>
              || (exists w :: AskedByDomain(d, w) && w.target == t)
              || (d.custom == None && t == d.customTarget && FileExists(disk, t))
  {
    MapMembers(DomainWrites(d), DesiredTarget);
    forall w ensures w in DomainWrites(d) <==> AskedByDomain(d, w) { DomainWritesAsked(d, w); }
  }

  lemma {:induction false} SiteDesireIsAsked(plan: Plan, s: SiteRender, disk: Disk, t: string)
    requires s in plan.sites && SiteDesires(s, disk, t)
    ensures AskedTarget(plan, t) || HandWritten(plan, disk, t)
  {
    if t == s.main.target {
      assert AskedBySite(s, s.main);
    } else {
      var d :| d in s.domains && DomainDesires(d, disk, t);
      DomainDesireIsAsked(d, disk, t);
      if w :| AskedByDomain(d, w) && w.target == t {
        assert AskedBySite(s, w);
      }
    }
  }

  lemma {:induction false} HandWrittenIsDesired(plan: Plan, disk: Disk, t: string) returns (i: nat)
    requires HandWritten(plan, disk, t)
    ensures i < |plan.sites| && SiteDesires(plan.sites[i], disk, t)
  {
    var s, d :| s in plan.sites && d in s.domains && d.custom == None && d.customTarget == t;
    i :| 0 <= i < |plan.sites| && plan.sites[i] == s;
    DomainDesireIsAsked(d, disk, t);
  }

  /** A file of a site's directory that nothing asks for and nobody wrote by hand is stale. */
  lemma {:induction false} UnaskedIsStale(plan: Plan, disk: Disk, t: string, i: nat)
    requires i < |plan.sites| && InTree(plan.sites[i].name, t) && t in disk
    requires !AskedTarget(plan, t) && !HandWritten(plan, disk, t)
    ensures StaleTree(plan, disk, t)
  {
    if j: nat :| j < i + 1 && SiteDesires(plan.sites[j], disk, t) {
      SiteDesireIsAsked(plan, plan.sites[j], disk, t);
    }
  }

  /** What the cutover does, in terms of the plan's own fields. Everything asked for holds its content, new
      files with mode 0644 and owner root; no delete names it; every write is asked for. Of the files below a
      site's directory exactly those asked for or written by hand are left, and a file neither asked for nor
      below such a directory nor in a pool directory is as it was. */
  lemma {:induction false} CutoverPartByPart(plan: Plan, disk: Disk, ownerOf: string -> Option<string>, artifacts: seq<Artifact>)
    requires WellPlaced(plan, ownerOf) && Renderable(plan, disk, ownerOf) && Manifest(plan, disk, ownerOf, artifacts)
    requires (forall a <- artifacts :: Declared(a)) && CleanupSucceeds(disk, artifacts)
    ensures forall w | Asked(plan, w) :: Lands(disk, Cutover(disk, artifacts), w)
    ensures forall a <- artifacts :: a.Write? ==> Asked(plan, Desired(a.target, a.content))
    ensures forall a <- artifacts :: Deferred(a) ==> !AskedTarget(plan, a.target) && !HandWritten(plan, disk, a.target)
    ensures forall t, i | 0 <= i < |plan.sites| && InTree(plan.sites[i].name, t) ::
              t in Cutover(disk, artifacts) <==> AskedTarget(plan, t) || HandWritten(plan, disk, t)
    ensures forall t | HandWritten(plan, disk, t) && !AskedTarget(plan, t) :: SameEntry(t, disk, Cutover(disk, artifacts))
    ensures forall t | !AskedTarget(plan, t) && OutsideTrees(plan, t) && !InPools(t) :: SameEntry(t, disk, Cutover(disk, artifacts))
  {
    var after := Cutover(disk, artifacts);
    CutoverReconciles(plan, disk, ownerOf, artifacts);
    forall w | Asked(plan, w) ensures Lands(disk, after, w) {
      WritesAreAsked(plan, w);
      AskedLands(plan, disk, ownerOf, artifacts, w);
    }
    forall a <- artifacts | a.Write? ensures Asked(plan, Desired(a.target, a.content)) {
      assert ArtifactOf(plan, disk, ownerOf, a);
      PendingShape(plan, disk, a);
      WritesAreAsked(plan, Desired(a.target, a.content));
    }
    forall a <- artifacts | Deferred(a) ensures !AskedTarget(plan, a.target) && !HandWritten(plan, disk, a.target) {
      TargetsAreAsked(plan, a.target);
      if HandWritten(plan, disk, a.target) { var i := HandWrittenIsDesired(plan, disk, a.target); }
    }
    forall t, i | 0 <= i < |plan.sites| && InTree(plan.sites[i].name, t)
      ensures t in after <==> AskedTarget(plan, t) || HandWritten(plan, disk, t)
    {
      TreeAfter(plan, disk, ownerOf, after, t, i);
    }
    forall t | HandWritten(plan, disk, t) && !AskedTarget(plan, t) ensures SameEntry(t, disk, after) {
      HandWrittenStays(plan, disk, ownerOf, after, t);
    }
    forall t | !AskedTarget(plan, t) && OutsideTrees(plan, t) && !InPools(t) ensures SameEntry(t, disk, after) {
      assert CutOver(plan, disk, ownerOf, after, t);
      TargetsAreAsked(plan, t);
    }
  }

  /** The content is there, and a file that was not there before is root's, readable by all. */
  ghost predicate Lands(disk: Disk, after: Disk, w: Desired) {
    && w.target in after && after[w.target].Regular? && after[w.target].file.content == w.content
    && (SameEntry(w.target, disk, after) || after[w.target].file == File(w.content, 420, 0, 0))
  }

  lemma {:induction false} AskedLands(plan: Plan, disk: Disk, ownerOf: string -> Option<string>, artifacts: seq<Artifact>, w: Desired)
    requires WellPlaced(plan, ownerOf) && Renderable(plan, disk, ownerOf) && Manifest(plan, disk, ownerOf, artifacts)
    requires (forall a <- artifacts :: Declared(a)) && w in Writes(plan)
    ensures Lands(disk, Cutover(disk, artifacts), w)
  {
    WriteLands(plan, disk, ownerOf, artifacts, w);
    ManifestIsSound(plan, disk, ownerOf, artifacts);
    CommitReaches(disk, artifacts);
    var committed := CommitAll(disk, artifacts, NO_FAULTS).disk;
    RemovalShape(committed, artifacts, {});
    if UpToDate(w, disk) {
      NoOtherWrite(plan, disk, ownerOf, artifacts, w);
      assert SameEntry(w.target, disk, committed);
    } else {
      PendingShape(plan, disk, WriteOf(w, disk));
      assert ArtifactOf(plan, disk, ownerOf, WriteOf(w, disk));
      assert Done(WriteOf(w, disk), disk, committed);
    }
  }

  lemma {:induction false} HandWrittenStays(plan: Plan, disk: Disk, ownerOf: string -> Option<string>, after: Disk, t: string)
    requires WellPlaced(plan, ownerOf) && CutOver(plan, disk, ownerOf, after, t)
    requires HandWritten(plan, disk, t) && !AskedTarget(plan, t)
    ensures SameEntry(t, disk, after)
  {
    var i := HandWrittenIsDesired(plan, disk, t);
    DesiredIsNotStale(plan, disk, ownerOf, i, t);
    TargetsAreAsked(plan, t);
  }

  lemma {:induction false} TreeAfter(plan: Plan, disk: Disk, ownerOf: string -> Option<string>, after: Disk, t: string, i: nat)
    requires WellPlaced(plan, ownerOf) && CutOver(plan, disk, ownerOf, after, t)
    requires i < |plan.sites| && InTree(plan.sites[i].name, t)
    ensures t in after <==> AskedTarget(plan, t) || HandWritten(plan, disk, t)
  {
    TargetsAreAsked(plan, t);
    if AskedTarget(plan, t) {
      MapMembers(Writes(plan), DesiredTarget);
    } else if HandWritten(plan, disk, t) {
      HandWrittenStays(plan, disk, ownerOf, after, t);
    } else if t in after && t in disk {
      UnaskedIsStale(plan, disk, t, i);
    }
  }

  // ------------------------------------------------------------- rendering once more

  lemma {:induction false} TreeFileStaysWanted(plan: Plan, disk: Disk, after: Disk, ownerOf: string -> Option<string>, i: nat, t: string)
    requires WellPlaced(plan, ownerOf) && CutOver(plan, disk, ownerOf, after, t)
    requires i < |plan.sites| && InTree(plan.sites[i].name, t) && t in after
    ensures DesiredUpTo(plan.sites, i + 1, after, t)
  {
    MapMembers(Writes(plan), DesiredTarget);
    if w :| w in Writes(plan) && w.target == t {
      WriteIsDesired(plan, after, w);
      var j: nat :| j < |plan.sites| && SiteDesires(plan.sites[j], after, t);
      SiteOfTree(plan, after, ownerOf, j, i, t);
    } else {
      assert !StaleTree(plan, disk, t) && SameEntry(t, disk, after);
      assert DesiredUpTo(plan.sites, i + 1, disk, t);
      var k: nat :| k < i + 1 && SiteDesires(plan.sites[k], disk, t);
      UnwrittenDesire(plan, plan.sites[k], disk, after, t);
    }
  }

  lemma {:induction false} SiteWritesAreWrites(plan: Plan, s: SiteRender, w: Desired)
    requires s in plan.sites && (w == s.main || exists d <- s.domains :: w in DomainWrites(d))
    ensures w in Writes(plan)
  {
    ConcatMembers(s.domains, DomainWrites);
    assert w in SiteWrites(s);
    ConcatMembers(plan.sites, SiteWrites);
  }

  /** What a site wants without writing it is a hand-written custom chunk, and it stays wanted. */
  lemma {:induction false} UnwrittenDesire(plan: Plan, s: SiteRender, disk: Disk, after: Disk, t: string)
    requires s in plan.sites && SiteDesires(s, disk, t) && SameEntry(t, disk, after)
    requires forall w <- Writes(plan) :: w.target != t
    ensures SiteDesires(s, after, t)
  {
    SiteWritesAreWrites(plan, s, s.main);
    var d :| d in s.domains && DomainDesires(d, disk, t);
    if t in Map(DomainWrites(d), DesiredTarget) {
      MapMembers(DomainWrites(d), DesiredTarget);
      assert DomainDesires(d, after, t);
    } else {
      assert KeptCustom(d, after, t);
      assert DomainDesires(d, after, t);
    }
  }

  lemma {:induction false} NoStaleTreeAfter(plan: Plan, disk: Disk, after: Disk, ownerOf: string -> Option<string>, t: string)
    requires WellPlaced(plan, ownerOf) && CutOver(plan, disk, ownerOf, after, t)
    ensures !StaleTree(plan, after, t)
  {
    forall i | 0 <= i < |plan.sites| && InTree(plan.sites[i].name, t) && t in after
      ensures DesiredUpTo(plan.sites, i + 1, after, t)
    {
      TreeFileStaysWanted(plan, disk, after, ownerOf, i, t);
    }
  }

  lemma {:induction false} UndesiredPoolIsNotWritten(plan: Plan, disk: Disk, ownerOf: string -> Option<string>, t: string)
    requires WellPlaced(plan, ownerOf) && InPools(t) && !PoolDesired(plan, t)
    ensures forall w <- Writes(plan) :: w.target != t
  {
    forall w <- Writes(plan) ensures w.target != t {
      if w.target == t {
        WriteIsDesired(plan, disk, w);
        var i: nat :| i < |plan.sites| && SiteDesires(plan.sites[i], disk, t);
        DesireIsPlaced(plan, disk, ownerOf, plan.sites[i], t);
        if InTree(plan.sites[i].name, t) { TreeIsNotPool(plan.sites[i].name, t); }
      }
    }
  }

  lemma {:induction false} NoStalePoolAfter(plan: Plan, disk: Disk, after: Disk, ownerOf: string -> Option<string>, t: string)
    requires WellPlaced(plan, ownerOf) && CutOver(plan, disk, ownerOf, after, t)
    ensures !StalePool(plan, after, t, ownerOf)
  {
    if MarkedPool(after, t, ownerOf) && !PoolDesired(plan, t) {
      UndesiredPoolIsNotWritten(plan, disk, ownerOf, t);
      MapMembers(Writes(plan), DesiredTarget);
      assert SameEntry(t, disk, after);
    }
  }

  lemma {:induction false} NoCollisionAfter(plan: Plan, after: Disk, ownerOf: string -> Option<string>, t: string)
    requires WellPlaced(plan, ownerOf)
    requires forall w <- Writes(plan) :: w.target == t ==> FileExists(after, t) && after[t].file.content == w.content
    ensures !PoolCollides(plan, after, t, ownerOf)
  {
    forall p <- Pools(plan) | PoolTarget(p) == t && MarkedPool(after, t, ownerOf)
      ensures CanWrite(ownerOf(after[t].file.content).value, p.domainId, p.runtimeKey)
    {
      var s := PieceOf(plan.sites, SitePools, p);
      var d := PieceOf(s.domains, DomainPools, p);
      assert DomainPlaced(s, d, ownerOf);
      assert p.file in DomainWrites(d);
      SiteWritesAreWrites(plan, s, p.file);
    }
  }

  lemma {:induction false} HasMember<T>(s: seq<T>)
    requires s != []
    ensures exists x :: x in s
  {
    assert s[0] in s;
  }

  /** Rendering over the reconciled files finds nothing to do. */
  lemma {:induction false} SecondRenderIsEmpty(plan: Plan, disk: Disk, after: Disk, ownerOf: string -> Option<string>)
    requires WellPlaced(plan, ownerOf) && Renderable(plan, disk, ownerOf)
    requires forall t :: CutOver(plan, disk, ownerOf, after, t)
    ensures Renderable(plan, after, ownerOf) && Manifest(plan, after, ownerOf, [])
    ensures forall artifacts :: Manifest(plan, after, ownerOf, artifacts) ==> artifacts == []
  {
    MapMembers(Writes(plan), DesiredTarget);
    forall w <- Writes(plan) ensures UpToDate(w, after) && PlaceableIn(after)(w) {
      assert CutOver(plan, disk, ownerOf, after, w.target);
    }
    forall s, t | s in plan.sites && t in after && InTree(s.name, t) ensures after[t].Regular? {
      assert CutOver(plan, disk, ownerOf, after, t);
    }
    forall t <- after ensures !PoolCollides(plan, after, t, ownerOf) {
      assert CutOver(plan, disk, ownerOf, after, t);
      NoCollisionAfter(plan, after, ownerOf, t);
    }
    forall a ensures !ArtifactOf(plan, after, ownerOf, a) {
      PendingShape(plan, after, a);
      NoStaleTreeAfter(plan, disk, after, ownerOf, a.target);
      NoStalePoolAfter(plan, disk, after, ownerOf, a.target);
    }
    forall artifacts | Manifest(plan, after, ownerOf, artifacts) ensures artifacts == [] {
      if artifacts != [] { HasMember(artifacts); }
    }
  }

  // ------------------------------------------------------------------ pool owners

  lemma {:induction false} PoolsAreFields(plan: Plan, p: Pool)
    ensures p in Pools(plan) <==> exists s, d :: s in plan.sites && d in s.domains && d.pool == Some(p)
  {
    ConcatMembers(plan.sites, SitePools);
    forall s <- plan.sites ensures p in SitePools(s) <==> exists d :: d in s.domains && d.pool == Some(p) {
      ConcatMembers(s.domains, DomainPools);
    }
  }

  /** Whose file a desired pool may replace: its own domain's, or the one the migration marked with its key. */
  lemma {:induction false} PoolOwnersDecide(plan: Plan, disk: Disk, ownerOf: string -> Option<string>, s: SiteRender, d: DomainRender, p: Pool)
    requires s in plan.sites && d in s.domains && d.pool == Some(p) && Distinct(Map(Pools(plan), PoolTarget))
    requires MarkedPool(disk, PoolTarget(p), ownerOf)
    ensures var id := ownerOf(disk[PoolTarget(p)].file.content).value;
            && (id == p.domainId ==> !PoolCollides(plan, disk, PoolTarget(p), ownerOf))
            && (id == "migrated-" + p.runtimeKey && IsUuid(p.domainId) ==> !PoolCollides(plan, disk, PoolTarget(p), ownerOf))
            && (id != p.domainId && id != "migrated-" + p.runtimeKey ==>
                  PoolCollides(plan, disk, PoolTarget(p), ownerOf) && !Renderable(plan, disk, ownerOf))
  {
    PoolsAreFields(plan, p);
    forall q <- Pools(plan) | PoolTarget(q) == PoolTarget(p) ensures q == p { SamePool(Pools(plan), p, q); }
  }

  // ------------------------------------------------------------- pools that are left

  /** No artifact of the manifest names a target that is neither written nor stale. */
  lemma {:induction false} NotInManifest(plan: Plan, disk: Disk, ownerOf: string -> Option<string>, artifacts: seq<Artifact>, t: string)
    requires Manifest(plan, disk, ownerOf, artifacts) && !StaleTarget(plan, disk, t, ownerOf)
    requires forall w <- Writes(plan) :: w.target != t
    ensures forall a <- artifacts :: a.target != t
  {
    forall a <- artifacts ensures a.target != t {
      assert ArtifactOf(plan, disk, ownerOf, a);
      PendingShape(plan, disk, a);
    }
  }

  lemma {:induction false} CleanedTwice(disk: Disk)
    ensures Cutover(disk, []) == disk
  {
  }

  /** A marked pool file that the plan does not ask for survives the whole cutover, unchanged and named by
      no artifact, exactly when its domain stays without any pool; and the next render leaves it as well. */
  lemma {:induction false} PoolsThatStay(plan: Plan, disk: Disk, ownerOf: string -> Option<string>, artifacts: seq<Artifact>, t: string)
    requires WellPlaced(plan, ownerOf) && Renderable(plan, disk, ownerOf) && Manifest(plan, disk, ownerOf, artifacts)
    requires (forall a <- artifacts :: Declared(a)) && CleanupSucceeds(disk, artifacts)
    requires MarkedPool(disk, t, ownerOf) && !PoolDesired(plan, t)
    ensures var id := ownerOf(disk[t].file.content).value;
            var orphan := id in FinalDomainIds(plan) && !DomainHasPool(plan, id);
            var after := Cutover(disk, artifacts);
            && (t in after <==> orphan)
            && (orphan ==> after[t] == disk[t])
            && ((forall a <- artifacts :: a.target != t) <==> orphan)
            && Renderable(plan, after, ownerOf)
            && (forall again :: Manifest(plan, after, ownerOf, again) ==> again == [])
            && Manifest(plan, after, ownerOf, []) && Cutover(after, []) == after
  {
    var after := Cutover(disk, artifacts);
    CutoverReconciles(plan, disk, ownerOf, artifacts);
    assert CutOver(plan, disk, ownerOf, after, t);
    UndesiredPoolIsNotWritten(plan, disk, ownerOf, t);
    MapMembers(Writes(plan), DesiredTarget);
    forall s <- plan.sites ensures !InTree(s.name, t) {
      if InTree(s.name, t) { TreeIsNotPool(s.name, t); }
    }
    StaleIsDeleted(plan, disk, ownerOf, artifacts, t);
    if !StaleTarget(plan, disk, t, ownerOf) { NotInManifest(plan, disk, ownerOf, artifacts, t); }
    SecondRenderIsEmpty(plan, disk, after, ownerOf);
    CleanedTwice(after);
  }

  // ------------------------------------------------------------------- the renderer

  /** The targets one site asks for. */
  method CollectDesired(s: SiteRender, disk: Disk, desired: set<string>) returns (after: set<string>)
    ensures forall t :: t in after <==> t in desired || SiteDesires(s, disk, t)
  {
    after := desired + {s.main.target};
    for i := 0 to |s.domains|
      invariant forall t :: t in after <==> t in desired || t == s.main.target || exists j | 0 <= j < i :: DomainDesires(s.domains[j], disk, t)
    {
      var d := s.domains[i];
      after := after + Elements(Map(DomainWrites(d), DesiredTarget));
      if d.custom == None && FileExists(disk, d.customTarget) {
        after := after + {d.customTarget};
      }
    }
  }

  /** collectFiles and the stale check of one site, given everything desired so far. */
  method StaleOfSite(s: SiteRender, disk: Disk, desired: set<string>) returns (ok: bool, deletes: seq<Artifact>)
    ensures ok <==> forall t <- disk :: InTree(s.name, t) ==> disk[t].Regular?
    ensures ok ==> Deletes(deletes, set t | t in disk && InTree(s.name, t) && t !in desired)
  {
    if exists t <- disk :: InTree(s.name, t) && !disk[t].Regular? { return false, []; }
    ok := true;
    deletes := DeleteAll(set t | t in disk && InTree(s.name, t) && t !in desired);
  }

  ghost predicate StaleUpTo(plan: Plan, n: nat, disk: Disk, t: string)
    requires n <= |plan.sites|
  {
    exists i | 0 <= i < n :: InTree(plan.sites[i].name, t) && t in disk && !DesiredUpTo(plan.sites, i + 1, disk, t)
  }

  ghost predicate TreeDeletes(plan: Plan, n: nat, disk: Disk, deletes: seq<Artifact>)
    requires n <= |plan.sites|
  {
    && (forall a :: a in deletes <==> a == Delete(a.target, true) && StaleUpTo(plan, n, disk, a.target))
    && (NamesApart(plan) ==> Distinct(Map(deletes, TargetOf)))
  }

  lemma {:induction false} MoreTreeDeletes(plan: Plan, n: nat, disk: Disk, deletes: seq<Artifact>, desired: set<string>, more: seq<Artifact>)
    requires n < |plan.sites| && TreeDeletes(plan, n, disk, deletes)
    requires forall t :: t in desired <==> DesiredUpTo(plan.sites, n + 1, disk, t)
    requires Deletes(more, set t | t in disk && InTree(plan.sites[n].name, t) && t !in desired)
    ensures TreeDeletes(plan, n + 1, disk, deletes + more)
  {
    forall t ensures StaleUpTo(plan, n + 1, disk, t) <==>
                       StaleUpTo(plan, n, disk, t) || (InTree(plan.sites[n].name, t) && t in disk && t !in desired)
    {
    }
    if NamesApart(plan) {
      MapAppend(deletes, more, TargetOf);
      MapMembers(deletes, TargetOf);
      MapMembers(more, TargetOf);
      forall a, b | a in deletes && b in more ensures a.target != b.target {
        if a.target == b.target {
          var i: nat :| i < n && InTree(plan.sites[i].name, a.target);
          TreesDisjoint(plan.sites[i].name, plan.sites[n].name, a.target);
        }
      }
      DistinctAppend(Map(deletes, TargetOf), Map(more, TargetOf));
    }
  }

  /** Where the loop over the sites stands after n of them. */
  ghost predicate SitesRendered(plan: Plan, n: nat, disk: Disk, desired: set<string>, writes: seq<Artifact>, deletes: seq<Artifact>)
    requires n <= |plan.sites|
  {
    && (forall t :: t in desired <==> DesiredUpTo(plan.sites, n, disk, t))
    && writes == Concat(Concat(plan.sites[..n], SiteWrites), PendingIn(disk))
    && TreeDeletes(plan, n, disk, deletes)
  }

  predicate SiteRenderable(s: SiteRender, disk: Disk) {
    s.linkValid && (forall w <- SiteWrites(s) :: Placeable(w, disk))
    && forall t <- disk :: InTree(s.name, t) ==> disk[t].Regular?
  }

  /** One turn of the loop over the sites. */
  method RenderSite(plan: Plan, i: nat, disk: Disk, desired: set<string>, writes: seq<Artifact>, deletes: seq<Artifact>)
    returns (ok: bool, desired': set<string>, writes': seq<Artifact>, deletes': seq<Artifact>)
    requires i < |plan.sites| && SitesRendered(plan, i, disk, desired, writes, deletes)
    ensures ok <==> SiteRenderable(plan.sites[i], disk)
    ensures ok ==> SitesRendered(plan, i + 1, disk, desired', writes', deletes')
  {
    var s := plan.sites[i];
    var placed, added := AddDesiredArtifacts(SiteWrites(s), disk);
    WritesPlaced(s, disk);
    desired' := CollectDesired(s, disk, desired);
    var clean, stale := StaleOfSite(s, disk, desired');
    ok, writes', deletes' := s.linkValid && placed && clean, writes + added, deletes + stale;
    if ok {
      SiteStep(plan, i, disk, desired, desired', writes, deletes, added, stale);
    }
  }

  ghost predicate AllRendered(plan: Plan, disk: Disk, writes: seq<Artifact>, deletes: seq<Artifact>) {
    exists desired :: SitesRendered(plan, |plan.sites|, disk, desired, writes, deletes)
  }

  function SiteRenderableIn(disk: Disk): SiteRender -> bool { (s: SiteRender) => SiteRenderable(s, disk) }

  method RenderSites(plan: Plan, disk: Disk) returns (ok: bool, writes: seq<Artifact>, deletes: seq<Artifact>)
    ensures ok <==> All(plan.sites, SiteRenderableIn(disk))
    ensures ok ==> AllRendered(plan, disk, writes, deletes)
  {
    writes, deletes := [], [];
    var desired: set<string> := {};
    NothingRendered(plan, disk);
    ghost var renderable := SiteRenderableIn(disk);
    for i := 0 to |plan.sites|
      invariant All(plan.sites[..i], renderable)
      invariant SitesRendered(plan, i, disk, desired, writes, deletes)
    {
      NextPrefix(plan.sites, i);
      AllGrows(plan.sites[..i], plan.sites[i], renderable);
      ok, desired, writes, deletes := RenderSite(plan, i, disk, desired, writes, deletes);
      if !ok {
        NotAll(plan.sites, plan.sites[i], renderable);
        return;
      }
    }
    WholePrefix(plan.sites);
    FullyRendered(plan, disk, desired, writes, deletes);
    ok := true;
  }

  lemma {:induction false} NotAll<T>(s: seq<T>, x: T, p: T -> bool)
    requires x in s && !p(x)
    ensures !All(s, p)
  {
  }

  lemma {:induction false} FullyRendered(plan: Plan, disk: Disk, desired: set<string>, writes: seq<Artifact>, deletes: seq<Artifact>)
    requires SitesRendered(plan, |plan.sites|, disk, desired, writes, deletes)
    ensures AllRendered(plan, disk, writes, deletes)
  {
  }

  lemma {:induction false} NothingRendered(plan: Plan, disk: Disk)
    ensures SitesRendered(plan, 0, disk, {}, [], [])
  {
  }

  lemma {:induction false} WritesPlaced(s: SiteRender, disk: Disk)
    ensures All(SiteWrites(s), PlaceableIn(disk)) <==> forall w <- SiteWrites(s) :: Placeable(w, disk)
  {
    if All(SiteWrites(s), PlaceableIn(disk)) {
      forall w <- SiteWrites(s) ensures Placeable(w, disk) { assert PlaceableIn(disk)(w); }
    }
  }

  lemma {:induction false} SiteStep(plan: Plan, i: nat, disk: Disk, before: set<string>, desired: set<string>,
                 writes: seq<Artifact>, deletes: seq<Artifact>, added: seq<Artifact>, stale: seq<Artifact>)
    requires i < |plan.sites| && SitesRendered(plan, i, disk, before, writes, deletes)
    requires forall t :: t in desired <==> t in before || SiteDesires(plan.sites[i], disk, t)
    requires added == Concat(SiteWrites(plan.sites[i]), PendingIn(disk))
    requires Deletes(stale, set t | t in disk && InTree(plan.sites[i].name, t) && t !in desired)
    ensures SitesRendered(plan, i + 1, disk, desired, writes + added, deletes + stale)
  {
    NextPrefix(plan.sites, i);
    ConcatOne(plan.sites[..i], plan.sites[i], SiteWrites);
    ConcatAppend(Concat(plan.sites[..i], SiteWrites), SiteWrites(plan.sites[i]), PendingIn(disk));
    forall t ensures t in desired <==> DesiredUpTo(plan.sites, i + 1, disk, t) { OneMoreSite(plan.sites, i, disk, t); }
    MoreTreeDeletes(plan, i, disk, deletes, desired, stale);
  }

  lemma {:induction false} OneMoreSite(sites: seq<SiteRender>, i: nat, disk: Disk, t: string)
    requires i < |sites|
    ensures DesiredUpTo(sites, i + 1, disk, t) <==> DesiredUpTo(sites, i, disk, t) || SiteDesires(sites[i], disk, t)
  {
    if SiteDesires(sites[i], disk, t) {
      assert DesiredUpTo(sites, i + 1, disk, t);
    }
  }

  /** The loop over the pool directories. */
  method RenderPools(plan: Plan, disk: Disk, ownerOf: string -> Option<string>, byTarget: map<string, Pool>, byDomain: map<string, string>)
    returns (ok: bool, deletes: seq<Artifact>)
    requires Distinct(Map(Pools(plan), PoolTarget)) && PoolMaps(Pools(plan), byTarget, byDomain)
    ensures ok <==> forall t <- disk :: !PoolCollides(plan, disk, t, ownerOf)
    ensures ok ==> Deletes(deletes, StalePools(plan, disk, ownerOf))
  {
    var pending := set t | t in disk && MarkedPool(disk, t, ownerOf);
    var dropped: set<string> := {};
    while pending != {}
      invariant forall t <- pending :: t in disk && MarkedPool(disk, t, ownerOf)
      invariant forall t <- disk :: t !in pending ==> !PoolCollides(plan, disk, t, ownerOf)
      invariant forall t :: t in dropped <==> t in disk && t !in pending && StalePool(plan, disk, t, ownerOf)
    {
      var t :| t in pending;
      var id := ownerOf(disk[t].file.content).value;
      VerdictMeaning(plan, disk, t, ownerOf, byTarget, byDomain);
      var verdict := JudgePool(t, id, if t in byTarget then Some(byTarget[t]) else None,
                               if id in byDomain then Some(byDomain[id]) else None, id in FinalDomainIds(plan));
      if verdict == Collision { return false, []; }
      if verdict == Drop { dropped := dropped + {t}; }
      pending := pending - {t};
    }
    deletes := DeleteAll(dropped);
    assert dropped == StalePools(plan, disk, ownerOf);
    ok := true;
  }

  ghost function StalePools(plan: Plan, disk: Disk, ownerOf: string -> Option<string>): set<string> {
    set t | t in disk && StalePool(plan, disk, t, ownerOf)
  }

  function ByTarget(less: (string, string) -> bool): (Artifact, Artifact) -> bool {
    (l: Artifact, r: Artifact) => less(l.target, r.target)
  }

  /** The duplicate check at the end of the renderer. */
  method TargetsDistinct(artifacts: seq<Artifact>) returns (ok: bool)
    ensures ok <==> Distinct(Map(artifacts, TargetOf))
  {
    var seen: set<string> := {};
    for i := 0 to |artifacts|
      invariant seen == Elements(Map(artifacts[..i], TargetOf))
      invariant Distinct(Map(artifacts[..i], TargetOf))
    {
      NextPrefix(artifacts, i);
      MapOne(artifacts[..i], artifacts[i], TargetOf);
      DistinctGrows(Map(artifacts[..i], TargetOf), artifacts[i].target);
      if artifacts[i].target in seen {
        RepeatedTarget(artifacts, i);
        return false;
      }
      seen := seen + {artifacts[i].target};
    }
    WholePrefix(artifacts);
    ok := true;
  }

  lemma {:induction false} RepeatedTarget(artifacts: seq<Artifact>, i: nat)
    requires i < |artifacts| && artifacts[i].target in Map(artifacts[..i], TargetOf)
    ensures !Distinct(Map(artifacts, TargetOf))
  {
    MapMembers(artifacts[..i], TargetOf);
    var a :| a in artifacts[..i] && a.target == artifacts[i].target;
    var j :| 0 <= j < i && artifacts[j] == a;
    var targets := Map(artifacts, TargetOf);
    assert targets[j] == targets[i];
  }

  lemma {:induction false} RenderableParts(plan: Plan, disk: Disk, ownerOf: string -> Option<string>)
    ensures All(plan.sites, SiteRenderableIn(disk)) && All(plan.tail, PlaceableIn(disk))
       <==> (forall s <- plan.sites :: s.linkValid) && All(Writes(plan), PlaceableIn(disk)) && TreesRegular(plan, disk)
  {
    AllAppend(Concat(plan.sites, SiteWrites), plan.tail, PlaceableIn(disk));
    ConcatMembers(plan.sites, SiteWrites);
    if All(plan.sites, SiteRenderableIn(disk)) {
      forall s <- plan.sites ensures SiteRenderable(s, disk) { assert SiteRenderableIn(disk)(s); }
      forall w <- Concat(plan.sites, SiteWrites) ensures PlaceableIn(disk)(w) {
        var s := PieceOf(plan.sites, SiteWrites, w);
      }
    }
    if All(Concat(plan.sites, SiteWrites), PlaceableIn(disk)) {
      forall s, w | s in plan.sites && w in SiteWrites(s) ensures Placeable(w, disk) {
        assert w in Concat(plan.sites, SiteWrites);
        assert PlaceableIn(disk)(w);
      }
    }
  }

  /** main: the manifest of a plan over the given files, or an error. */
  method Render(plan: Plan, disk: Disk, ownerOf: string -> Option<string>, less: (string, string) -> bool)
    returns (ok: bool, artifacts: seq<Artifact>)
    ensures ok ==> Renderable(plan, disk, ownerOf) && Manifest(plan, disk, ownerOf, artifacts)
    ensures Renderable(plan, disk, ownerOf) && WellPlaced(plan, ownerOf) ==> ok
  {
    artifacts := [];
    RenderableParts(plan, disk, ownerOf);
    var rendered, writes, treeDeletes := RenderSites(plan, disk);
    if !rendered { return false, []; }
    var claimed, byTarget, byDomain := ClaimPools(Pools(plan));
    if !claimed { return false, []; }
    var placed, tail := AddDesiredArtifacts(plan.tail, disk);
    if !placed { return false, []; }
    var sound, poolDeletes := RenderPools(plan, disk, ownerOf, byTarget, byDomain);
    if !sound { return false, []; }
    var all := writes + tail + treeDeletes + poolDeletes;
    artifacts := Sort(all, ByTarget(less));
    SamePermutation(all, artifacts);
    Assembled(plan, disk, ownerOf, writes, tail, treeDeletes, poolDeletes);
    MapPermuted(all, artifacts, TargetOf);
    ok := TargetsDistinct(artifacts);
    if Distinct(Map(all, TargetOf)) {
      PermutationDistinct(Map(all, TargetOf), Map(artifacts, TargetOf));
    }
  }

  /** The four parts together are what a manifest must hold, and well placed plans cause no duplicates. */
  lemma {:induction false} Assembled(plan: Plan, disk: Disk, ownerOf: string -> Option<string>,
                  writes: seq<Artifact>, tail: seq<Artifact>, treeDeletes: seq<Artifact>, poolDeletes: seq<Artifact>)
    requires AllRendered(plan, disk, writes, treeDeletes)
    requires tail == Concat(plan.tail, PendingIn(disk)) && Deletes(poolDeletes, StalePools(plan, disk, ownerOf))
    ensures forall a :: a in writes + tail + treeDeletes + poolDeletes <==> ArtifactOf(plan, disk, ownerOf, a)
    ensures WellPlaced(plan, ownerOf) ==> Distinct(Map(writes + tail + treeDeletes + poolDeletes, TargetOf))
  {
    WholePrefix(plan.sites);
    ConcatAppend(Concat(plan.sites, SiteWrites), plan.tail, PendingIn(disk));
    assert writes + tail == Pending(plan, disk);
    forall t ensures StaleUpTo(plan, |plan.sites|, disk, t) <==> StaleTree(plan, disk, t) {}
    if WellPlaced(plan, ownerOf) {
      PartsApart(plan, disk, ownerOf, writes + tail, treeDeletes, poolDeletes);
    }
  }

  lemma {:induction false} PendingDistinct(writes: seq<Desired>, disk: Disk)
    requires Distinct(Map(writes, DesiredTarget))
    ensures Distinct(Map(Concat(writes, PendingIn(disk)), TargetOf))
    ensures forall a <- Concat(writes, PendingIn(disk)) :: a.target in Map(writes, DesiredTarget)
  {
    if writes != [] {
      var most, last := writes[..|writes| - 1], writes[|writes| - 1];
      assert writes == most + [last];
      MapOne(most, last, DesiredTarget);
      DistinctGrows(Map(most, DesiredTarget), last.target);
      PendingDistinct(most, disk);
      var pending := Concat(most, PendingIn(disk));
      if !UpToDate(last, disk) {
        MapOne(pending, WriteOf(last, disk), TargetOf);
        MapMembers(pending, TargetOf);
        DistinctGrows(Map(pending, TargetOf), last.target);
      } else {
        assert Concat(writes, PendingIn(disk)) == pending;
      }
    }
  }

  lemma {:induction false} PendingIsNotStale(plan: Plan, disk: Disk, ownerOf: string -> Option<string>, a: Artifact)
    requires WellPlaced(plan, ownerOf) && a in Pending(plan, disk)
    ensures !StaleTarget(plan, disk, a.target, ownerOf)
  {
    PendingShape(plan, disk, a);
    var w :| w in Writes(plan) && !UpToDate(w, disk) && a == WriteOf(w, disk);
    WritesAreNotStale(plan, disk, ownerOf, w);
  }

  lemma {:induction false} StaleTreeIsNotPool(plan: Plan, disk: Disk, ownerOf: string -> Option<string>, t: string)
    requires StaleTree(plan, disk, t)
    ensures !StalePool(plan, disk, t, ownerOf)
  {
    var i: nat :| i < |plan.sites| && InTree(plan.sites[i].name, t);
    TreeIsNotPool(plan.sites[i].name, t);
  }

  /** Artifact lists whose targets fall into three separate kinds. */
  lemma {:induction false} ThreeKinds(a: seq<Artifact>, b: seq<Artifact>, c: seq<Artifact>, tree: string -> bool, pool: string -> bool)
    requires Distinct(Map(a, TargetOf)) && Distinct(Map(b, TargetOf)) && Distinct(Map(c, TargetOf))
    requires forall x <- a :: !tree(x.target) && !pool(x.target)
    requires forall x <- b :: tree(x.target) && !pool(x.target)
    requires forall x <- c :: pool(x.target)
    ensures Distinct(Map(a + b + c, TargetOf))
  {
    TargetsApart(a, b, tree);
    DistinctAppend(Map(a, TargetOf), Map(b, TargetOf));
    MapAppend(a, b, TargetOf);
    MapAppend(a + b, c, TargetOf);
    TargetsApart(a + b, c, pool);
    DistinctAppend(Map(a + b, TargetOf), Map(c, TargetOf));
  }

  lemma {:induction false} TargetsApart(a: seq<Artifact>, b: seq<Artifact>, kind: string -> bool)
    requires forall x <- a :: !kind(x.target)
    requires forall x <- b :: kind(x.target)
    ensures forall t <- Map(a, TargetOf) :: t !in Map(b, TargetOf)
  {
    MapMembers(a, TargetOf);
    MapMembers(b, TargetOf);
  }

  ghost function StaleTreeIn(plan: Plan, disk: Disk): string -> bool { (t: string) => StaleTree(plan, disk, t) }

  ghost function StalePoolIn(plan: Plan, disk: Disk, ownerOf: string -> Option<string>): string -> bool {
    (t: string) => StalePool(plan, disk, t, ownerOf)
  }

  lemma {:induction false} PartsApart(plan: Plan, disk: Disk, ownerOf: string -> Option<string>,
                   pending: seq<Artifact>, treeDeletes: seq<Artifact>, poolDeletes: seq<Artifact>)
    requires WellPlaced(plan, ownerOf) && pending == Pending(plan, disk)
    requires TreeDeletes(plan, |plan.sites|, disk, treeDeletes) && Deletes(poolDeletes, StalePools(plan, disk, ownerOf))
    ensures Distinct(Map(pending + treeDeletes + poolDeletes, TargetOf))
  {
    var tree, pool := StaleTreeIn(plan, disk), StalePoolIn(plan, disk, ownerOf);
    PendingDistinct(Writes(plan), disk);
    forall a <- pending ensures !tree(a.target) && !pool(a.target) {
      PendingIsNotStale(plan, disk, ownerOf, a);
    }
    forall a <- treeDeletes ensures tree(a.target) && !pool(a.target) {
      assert StaleTree(plan, disk, a.target);
      StaleTreeIsNotPool(plan, disk, ownerOf, a.target);
    }
    ThreeKinds(pending, treeDeletes, poolDeletes, tree, pool);
  }
}
