/** A pool that outlives its domain's PHP: one site with one domain that has no PHP, on a host that still
    holds the pool file the domain once had (migrations/runtime-renderer.ts:154-183, 637-659). */
module OrphanedPool {
  import opened Common
  import opened RuntimeApply
  import opened RuntimeRender
  import opened RuntimeReconcile
  import LegacyPaths
  import RuntimeKeys

  function MainFile(site: string): string { "/etc/nginx/sites-available/" + site + ".conf" }
  function CustomFile(site: string, id: string): string { "/etc/nginx/meowbox/" + site + "/" + (id + "/95-custom.conf") }
  function PoolPath(version: string, file: string): string { "/etc/php/" + version + "/fpm/pool.d/" + file }

  function Unserved(site: string, id: string): DomainRender { DomainRender(id, [], CustomFile(site, id), None, None) }
  function OneSite(site: string, id: string, text: string): SiteRender {
    SiteRender(site, true, Desired(MainFile(site), text), [Unserved(site, id)])
  }
  function OnePlan(site: string, id: string, text: string): Plan { Plan([OneSite(site, id, text)], []) }

  /** The host holds the old pool file and nothing else. */
  function OldDisk(pool: string, text: string): Disk { map[pool := Regular(File(text, MODE_0644, 0, 0))] }

  /** Every pool text carries the domain's marker. */
  function MarkedFor(id: string): string -> Option<string> { (text: string) => Some(id) }

  // ---------------------------------------------------------------- where things are

  lemma {:induction false} UpperParts(rest: string)
    ensures LegacyPaths.Split("" + "/" + ("etc" + "/" + ("php" + "/" + rest))) == ["", "etc", "php"] + LegacyPaths.Split(rest)
  {
    LegacyPaths.SplitPrefix("php", rest);
    LegacyPaths.SplitPrefix("etc", "php" + "/" + rest);
    LegacyPaths.SplitPrefix("", "etc" + "/" + ("php" + "/" + rest));
  }

  lemma {:induction false} LowerParts(version: string, file: string)
    requires '/' !in version && '/' !in file
    ensures LegacyPaths.Split(version + "/" + ("fpm" + "/" + ("pool.d" + "/" + file))) == [version, "fpm", "pool.d", file]
  {
    LegacyPaths.SplitPrefix(file, "");
    LegacyPaths.SplitPrefix("pool.d", file);
    LegacyPaths.SplitPrefix("fpm", "pool.d" + "/" + file);
    LegacyPaths.SplitPrefix(version, "fpm" + "/" + ("pool.d" + "/" + file));
  }

  lemma {:induction false} PoolPieces(version: string, file: string)
    ensures PoolPath(version, file)
         == "" + "/" + ("etc" + "/" + ("php" + "/" + (version + "/" + ("fpm" + "/" + ("pool.d" + "/" + file)))))
  {
  }

  lemma {:induction false} PoolParts(version: string, file: string)
    requires '/' !in version && '/' !in file
    ensures LegacyPaths.Split(PoolPath(version, file)) == ["", "etc", "php", version, "fpm", "pool.d", file]
  {
    PoolPieces(version, file);
    UpperParts(version + "/" + ("fpm" + "/" + ("pool.d" + "/" + file)));
    LowerParts(version, file);
  }

  lemma {:induction false} PoolIsInPools(version: string, file: string)
    requires RuntimeKeys.IsPhpVersion(version) && '/' !in version && '/' !in file && EndsWithConf(file)
    ensures InPools(PoolPath(version, file))
  {
    PoolParts(version, file);
  }

  lemma {:induction false} MainIsElsewhere(site: string)
    ensures !InTree(site, MainFile(site)) && !InPools(MainFile(site))
  {
    var t, tree := MainFile(site), "/etc/nginx/meowbox/" + site + "/";
    assert t == "/etc/nginx/" + ("sites-available/" + site + ".conf");
    NginxIsNotPool("sites-available/" + site + ".conf");
    assert t[11] == 's' && tree[11] == 'm';
  }

  lemma {:induction false} CustomIsInTree(site: string, id: string)
    ensures InTree(site, CustomFile(site, id))
  {
  }

  // ------------------------------------------------------------------- the plan

  lemma {:induction false} ConcatSingle<S, T>(x: S, f: S -> seq<T>)
    ensures Concat([x], f) == f(x)
  {
    ConcatOne([], x, f);
    assert [] + [x] == [x] && [] + f(x) == f(x);
  }

  lemma {:induction false} PlanWrites(site: string, id: string, text: string)
    ensures var plan := OnePlan(site, id, text);
            Writes(plan) == [Desired(MainFile(site), text)] && Pools(plan) == [] && FinalDomainIds(plan) == [id]
  {
    var plan, s, d := OnePlan(site, id, text), OneSite(site, id, text), Unserved(site, id);
    ConcatSingle(d, DomainWrites);
    ConcatSingle(d, DomainPools);
    ConcatSingle(s, SiteWrites);
    ConcatSingle(s, SitePools);
    ConcatSingle(s, SiteDomainIds);
    assert DomainWrites(d) == [] && DomainPools(d) == [];
  }

  lemma {:induction false} PlanIsPlaced(site: string, id: string, text: string)
    requires '/' !in site
    ensures WellPlaced(OnePlan(site, id, text), MarkedFor(id))
  {
    PlanWrites(site, id, text);
    MainIsElsewhere(site);
    CustomIsInTree(site, id);
    assert DomainPlaced(OneSite(site, id, text), Unserved(site, id), MarkedFor(id));
  }

  lemma {:induction false} PlanRenders(site: string, id: string, text: string, pool: string, left: string)
    requires InPools(pool)
    ensures Renderable(OnePlan(site, id, text), OldDisk(pool, left), MarkedFor(id))
  {
    PlanWrites(site, id, text);
    if InTree(site, pool) { TreeIsNotPool(site, pool); }
  }

  lemma {:induction false} NothingIsStale(site: string, id: string, text: string, pool: string, left: string, t: string)
    requires InPools(pool)
    ensures !StaleTarget(OnePlan(site, id, text), OldDisk(pool, left), t, MarkedFor(id))
  {
    PlanWrites(site, id, text);
    if t == pool {
      if InTree(site, pool) { TreeIsNotPool(site, pool); }
      assert id in FinalDomainIds(OnePlan(site, id, text));
    }
  }

  function OneArtifact(site: string, text: string, pool: string, left: string): seq<Artifact> {
    [WriteOf(Desired(MainFile(site), text), OldDisk(pool, left))]
  }

  lemma {:induction false} PlanManifest(site: string, id: string, text: string, pool: string, left: string)
    requires InPools(pool)
    ensures Manifest(OnePlan(site, id, text), OldDisk(pool, left), MarkedFor(id), OneArtifact(site, text, pool, left))
  {
    var plan, disk, artifacts := OnePlan(site, id, text), OldDisk(pool, left), OneArtifact(site, text, pool, left);
    PlanWrites(site, id, text);
    MainIsElsewhere(site);
    forall a ensures a in artifacts <==> ArtifactOf(plan, disk, MarkedFor(id), a) {
      PendingShape(plan, disk, a);
      NothingIsStale(site, id, text, pool, left, a.target);
    }
  }

  lemma {:induction false} NothingToRemove(disk: Disk, artifacts: seq<Artifact>)
    requires |artifacts| == 1 && artifacts[0].Write?
    ensures RemoveAll(disk, artifacts, {}).ok
  {
    assert artifacts[..0] == [];
  }

  /** Nobody asks for the pool file, yet the cutover leaves it where PHP-FPM reads it. */
  lemma {:induction false} PoolWithoutPhpStays(site: string, id: string, text: string, version: string, file: string, left: string)
    requires '/' !in site && '/' !in version && '/' !in file && RuntimeKeys.IsPhpVersion(version) && EndsWithConf(file)
    ensures var plan, pool := OnePlan(site, id, text), PoolPath(version, file);
            var disk, artifacts := OldDisk(pool, left), OneArtifact(site, text, pool, left);
            && WellPlaced(plan, MarkedFor(id)) && Renderable(plan, disk, MarkedFor(id)) && Manifest(plan, disk, MarkedFor(id), artifacts)
            && (forall a <- artifacts :: Declared(a)) && CleanupSucceeds(disk, artifacts)
            && MarkedPool(disk, pool, MarkedFor(id)) && !PoolDesired(plan, pool)
            && id in FinalDomainIds(plan) && !DomainHasPool(plan, id)
            && pool in Cutover(disk, artifacts) && Cutover(disk, artifacts)[pool] == disk[pool]
  {
    var plan, pool := OnePlan(site, id, text), PoolPath(version, file);
    var disk, artifacts := OldDisk(pool, left), OneArtifact(site, text, pool, left);
    PoolIsInPools(version, file);
    PlanIsPlaced(site, id, text);
    PlanRenders(site, id, text, pool, left);
    PlanManifest(site, id, text, pool, left);
    NothingToRemove(CommitAll(disk, artifacts, NO_FAULTS).disk, artifacts);
    PlanWrites(site, id, text);
    PoolsThatStay(plan, disk, MarkedFor(id), artifacts, pool);
  }
}
