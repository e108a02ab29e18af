/** Comparing the rendered runtime with the host's files: which artifacts a manifest holds
    (migrations/runtime-renderer.ts:154-183, 398-424, 519-676; agent/src/php/pool-ownership.ts:1-19;
    agent/src/php/pool-template.ts:130-131). */
module RuntimeRender {
  import opened Common
  import opened RuntimeApply
  import LegacyPaths
  import RuntimeKeys

  /** One desired file. */
  datatype Desired = Desired(target: string, content: string)

  /** A desired PHP-FPM pool and its owner. */
  datatype Pool = Pool(file: Desired, domainId: string, runtimeKey: string)

  datatype DomainRender = DomainRender(id: string, chunks: seq<Desired>, customTarget: string, custom: Option<string>, pool: Option<Pool>)
  datatype SiteRender = SiteRender(name: string, linkValid: bool, main: Desired, domains: seq<DomainRender>)

  /** What the unseen templates render; `tail` holds the zones file and the two logrotate files. */
  datatype Plan = Plan(sites: seq<SiteRender>, tail: seq<Desired>)

  // ------------------------------------------------------------------- placement

  /** Files below /etc/nginx/meowbox/<site>. */
  predicate InTree(name: string, t: string) { "/etc/nginx/meowbox/" + name + "/" <= t }

  predicate EndsWithConf(f: string) { |f| >= 5 && f[|f| - 5..] == ".conf" }

  /** Files of a PHP version's pool directory that the renderer looks at. */
  predicate InPools(t: string) {
    var parts := LegacyPaths.Split(t);
    |parts| == 7 && parts[0] == "" && parts[1] == "etc" && parts[2] == "php" && RuntimeKeys.IsPhpVersion(parts[3])
    && parts[4] == "fpm" && parts[5] == "pool.d" && EndsWithConf(parts[6])
  }

  // --------------------------------------------------------------- desired writes

  function DomainWrites(d: DomainRender): seq<Desired> {
    d.chunks + (if d.custom.Some? then [Desired(d.customTarget, d.custom.value)] else [])
    + (if d.pool.Some? then [d.pool.value.file] else [])
  }

  function SiteWrites(s: SiteRender): seq<Desired> { [s.main] + Concat(s.domains, DomainWrites) }

  function Writes(plan: Plan): seq<Desired> { Concat(plan.sites, SiteWrites) + plan.tail }

  function DesiredTarget(w: Desired): string { w.target }

  predicate FileExists(disk: Disk, t: string) { t in disk && disk[t].Regular? }

  /** A hand-written 95-custom.conf is kept although nothing renders it. */
  predicate KeptCustom(d: DomainRender, disk: Disk, t: string) {
    d.custom == None && t == d.customTarget && FileExists(disk, t)
  }

  predicate DomainDesires(d: DomainRender, disk: Disk, t: string) {
    t in Map(DomainWrites(d), DesiredTarget) || KeptCustom(d, disk, t)
  }

  predicate SiteDesires(s: SiteRender, disk: Disk, t: string) {
    t == s.main.target || exists d <- s.domains :: DomainDesires(d, disk, t)
  }

  // --------------------------------------------------------------------- artifacts

  const MODE_0644: nat := 420

  predicate UpToDate(w: Desired, disk: Disk) {
    w.target in disk && disk[w.target].Regular? && disk[w.target].file.content == w.content
  }

  function WriteOf(w: Desired, disk: Disk): Artifact {
    Write(w.target, w.content, w.target in disk, Some(MODE_0644), Some(Owner(0, 0)))
  }

  /** addDesiredArtifact: nothing when the content is already there. */
  function PendingIn(disk: Disk): Desired -> seq<Artifact> {
    (w: Desired) => if UpToDate(w, disk) then [] else [WriteOf(w, disk)]
  }

  predicate Placeable(w: Desired, disk: Disk) { w.target in disk ==> disk[w.target].Regular? }

  function PlaceableIn(disk: Disk): Desired -> bool { (w: Desired) => Placeable(w, disk) }

  method AddDesiredArtifacts(writes: seq<Desired>, disk: Disk) returns (ok: bool, artifacts: seq<Artifact>)
    ensures ok <==> All(writes, PlaceableIn(disk))
    ensures ok ==> artifacts == Concat(writes, PendingIn(disk))
  {
    artifacts := [];
    for i := 0 to |writes|
      invariant All(writes[..i], PlaceableIn(disk))
      invariant artifacts == Concat(writes[..i], PendingIn(disk))
    {
      NextPrefix(writes, i);
      AllGrows(writes[..i], writes[i], PlaceableIn(disk));
      ConcatOne(writes[..i], writes[i], PendingIn(disk));
      var w := writes[i];
      if w.target in disk && disk[w.target].Foreign? {
        assert !PlaceableIn(disk)(w);
        return false, [];
      }
      if !(w.target in disk && disk[w.target].file.content == w.content) {
        artifacts := artifacts + [WriteOf(w, disk)];
      }
    }
    WholePrefix(writes);
    ok := true;
  }

  // -------------------------------------------------------------------- stale files

  ghost predicate DesiredUpTo(sites: seq<SiteRender>, n: nat, disk: Disk, t: string)
    requires n <= |sites|
  {
    exists i | 0 <= i < n :: SiteDesires(sites[i], disk, t)
  }

  /** A file of a site's tree that nothing rendered so far asks for. */
  ghost predicate StaleTree(plan: Plan, disk: Disk, t: string) {
    exists i | 0 <= i < |plan.sites| ::
      InTree(plan.sites[i].name, t) && t in disk && !DesiredUpTo(plan.sites, i + 1, disk, t)
  }

  /** The deferred deletes of a finite set of targets, one each. */
  ghost predicate Deletes(artifacts: seq<Artifact>, targets: set<string>) {
    Distinct(Map(artifacts, TargetOf)) && forall a :: a in artifacts <==> a == Delete(a.target, true) && a.target in targets
  }

  method DeleteAll(targets: set<string>) returns (artifacts: seq<Artifact>)
    ensures Deletes(artifacts, targets)
  {
    artifacts := [];
    var pending := targets;
    while pending != {}
      invariant pending <= targets && Deletes(artifacts, targets - pending)
    {
      var t :| t in pending;
      MapMembers(artifacts, TargetOf);
      MapOne(artifacts, Delete(t, true), TargetOf);
      DistinctGrows(Map(artifacts, TargetOf), t);
      artifacts := artifacts + [Delete(t, true)];
      pending := pending - {t};
    }
    assert targets - {} == targets;
  }

  // -------------------------------------------------------------------------- pools

  /** isUuid test of the ownership rule. */
  predicate Hex(c: char) { '0' <= c <= '9' || 'a' <= c <= 'f' || 'A' <= c <= 'F' }

  predicate IsUuid(s: string) {
    |s| == 36 && s[8] == '-' && s[13] == '-' && s[18] == '-' && s[23] == '-'
    && (forall i | 0 <= i < 36 && i != 8 && i != 13 && i != 18 && i != 23 :: Hex(s[i]))
    && '1' <= s[14] <= '8' && (s[19] == '8' || s[19] == '9' || s[19] == 'a' || s[19] == 'b' || s[19] == 'A' || s[19] == 'B')
  }

  /** canWritePhpPoolForDomain */
  predicate CanWrite(previous: string, next: string, runtimeKey: string) {
    previous == next || (IsUuid(next) && previous == "migrated-" + runtimeKey)
  }

  function DomainPools(d: DomainRender): seq<Pool> { if d.pool.Some? then [d.pool.value] else [] }
  function SitePools(s: SiteRender): seq<Pool> { Concat(s.domains, DomainPools) }
  function Pools(plan: Plan): seq<Pool> { Concat(plan.sites, SitePools) }

  function SiteDomainIds(s: SiteRender): seq<string> { Map(s.domains, (d: DomainRender) => d.id) }
  function FinalDomainIds(plan: Plan): seq<string> { Concat(plan.sites, SiteDomainIds) }

  function PoolTarget(p: Pool): string { p.file.target }

  /** desiredPoolByTarget and desiredPoolByDomain after the loops. */
  ghost predicate PoolMaps(pools: seq<Pool>, byTarget: map<string, Pool>, byDomain: map<string, string>) {
    && (forall t :: t in byTarget <==> exists p <- pools :: PoolTarget(p) == t)
    && (forall t <- byTarget :: byTarget[t] in pools && PoolTarget(byTarget[t]) == t)
    && (forall id :: id in byDomain <==> exists p <- pools :: p.domainId == id)
    && (forall id <- byDomain :: exists p <- pools :: p.domainId == id && PoolTarget(p) == byDomain[id])
  }

  method ClaimPools(pools: seq<Pool>) returns (ok: bool, byTarget: map<string, Pool>, byDomain: map<string, string>)
    ensures ok <==> Distinct(Map(pools, PoolTarget))
    ensures ok ==> PoolMaps(pools, byTarget, byDomain)
  {
    byTarget, byDomain := map[], map[];
    for i := 0 to |pools|
      invariant Distinct(Map(pools[..i], PoolTarget))
      invariant PoolMaps(pools[..i], byTarget, byDomain)
    {
      var p := pools[i];
      NextPrefix(pools, i);
      MapOne(pools[..i], p, PoolTarget);
      MapMembers(pools[..i], PoolTarget);
      DistinctGrows(Map(pools[..i], PoolTarget), PoolTarget(p));
      if PoolTarget(p) in byTarget {
        SharedTarget(pools, i, byTarget[PoolTarget(p)]);
        return false, map[], map[];
      }
      MapsStep(pools[..i], byTarget, byDomain, p);
      byDomain := byDomain[p.domainId := PoolTarget(p)];
      byTarget := byTarget[PoolTarget(p) := p];
    }
    WholePrefix(pools);
    ok := true;
  }

  lemma {:induction false} SharedTarget(pools: seq<Pool>, i: nat, p: Pool)
    requires i < |pools| && p in pools[..i] && PoolTarget(p) == PoolTarget(pools[i])
    ensures !Distinct(Map(pools, PoolTarget))
  {
    var j :| 0 <= j < i && pools[j] == p;
    var targets := Map(pools, PoolTarget);
    assert targets[j] == targets[i];
  }

  lemma {:induction false} MapsStep(pools: seq<Pool>, byTarget: map<string, Pool>, byDomain: map<string, string>, p: Pool)
    requires PoolMaps(pools, byTarget, byDomain)
    ensures PoolMaps(pools + [p], byTarget[PoolTarget(p) := p], byDomain[p.domainId := PoolTarget(p)])
  {
    assert p in pools + [p];
    forall q <- pools ensures q in pools + [p] {}
    var after := byDomain[p.domainId := PoolTarget(p)];
    forall id <- after ensures exists q <- pools + [p] :: q.domainId == id && PoolTarget(q) == after[id] {
      if id != p.domainId {
        var q :| q in pools && q.domainId == id && PoolTarget(q) == byDomain[id];
        assert q in pools + [p];
      }
    }
  }

  datatype PoolVerdict = Collision | Drop | Keep

  /** shouldDeleteExistingPool */
  function JudgePool(target: string, existingId: string, owner: Option<Pool>, desiredTarget: Option<string>, remains: bool): PoolVerdict {
    if owner.Some? then
      if CanWrite(existingId, owner.value.domainId, owner.value.runtimeKey) then Keep else Collision
    else if !remains || (desiredTarget.Some? && desiredTarget.value != target) then Drop
    else Keep
  }

  /** A pool file with an ownership marker; `ownerOf` reads the marker from the text. */
  predicate MarkedPool(disk: Disk, t: string, ownerOf: string -> Option<string>) {
    FileExists(disk, t) && InPools(t) && ownerOf(disk[t].file.content).Some?
  }

  predicate PoolDesired(plan: Plan, t: string) { exists p <- Pools(plan) :: PoolTarget(p) == t }
  predicate DomainHasPool(plan: Plan, id: string) { exists p <- Pools(plan) :: p.domainId == id }

  ghost predicate StalePool(plan: Plan, disk: Disk, t: string, ownerOf: string -> Option<string>) {
    MarkedPool(disk, t, ownerOf) && !PoolDesired(plan, t)
    && var id := ownerOf(disk[t].file.content).value; id !in FinalDomainIds(plan) || DomainHasPool(plan, id)
  }

  ghost predicate PoolCollides(plan: Plan, disk: Disk, t: string, ownerOf: string -> Option<string>) {
    MarkedPool(disk, t, ownerOf) && exists p <- Pools(plan) ::
      PoolTarget(p) == t && !CanWrite(ownerOf(disk[t].file.content).value, p.domainId, p.runtimeKey)
  }

  lemma {:induction false} VerdictMeaning(plan: Plan, disk: Disk, t: string, ownerOf: string -> Option<string>,
                       byTarget: map<string, Pool>, byDomain: map<string, string>)
    requires Distinct(Map(Pools(plan), PoolTarget)) && PoolMaps(Pools(plan), byTarget, byDomain) && MarkedPool(disk, t, ownerOf)
    ensures var id := ownerOf(disk[t].file.content).value;
            var verdict := JudgePool(t, id, if t in byTarget then Some(byTarget[t]) else None,
                                     if id in byDomain then Some(byDomain[id]) else None, id in FinalDomainIds(plan));
            && (verdict == Collision <==> PoolCollides(plan, disk, t, ownerOf))
            && (verdict == Drop <==> StalePool(plan, disk, t, ownerOf))
  {
    if t in byTarget {
      forall p <- Pools(plan) | PoolTarget(p) == t ensures p == byTarget[t] {
        SamePool(Pools(plan), p, byTarget[t]);
      }
    }
  }

  lemma {:induction false} SamePool(pools: seq<Pool>, p: Pool, q: Pool)
    requires Distinct(Map(pools, PoolTarget)) && p in pools && q in pools && PoolTarget(p) == PoolTarget(q)
    ensures p == q
  {
    var i :| 0 <= i < |pools| && pools[i] == p;
    var j :| 0 <= j < |pools| && pools[j] == q;
    var targets := Map(pools, PoolTarget);
    assert targets[i] == PoolTarget(p) && targets[j] == PoolTarget(q);
  }

  // -------------------------------------------------------- where files belong

  /** A site's tree is what lies below its directory. */
  lemma {:induction false} TreeInWords(name: string, t: string)
    ensures InTree(name, t) <==> exists rest :: t == "/etc/nginx/meowbox/" + name + "/" + rest
  {
    var directory := "/etc/nginx/meowbox/" + name + "/";
    if InTree(name, t) {
      assert t == directory + t[|directory|..];
    }
  }

  /** A .conf file in the pool directory of a PHP version. */
  ghost predicate PoolFile(t: string, version: string, stem: string) {
    t == "/etc/php/" + (version + ("/fpm/pool.d/" + (stem + ".conf"))) && RuntimeKeys.IsPhpVersion(version) && '/' !in stem
  }

  lemma {:induction false} VersionHasNoSlash(version: string)
    requires RuntimeKeys.IsPhpVersion(version)
    ensures '/' !in version
  {
    var i :| 0 <= i < |version| && version[i] == '.' && RuntimeKeys.Digits(version[..i]) && RuntimeKeys.Digits(version[i + 1..]);
    forall j | 0 <= j < |version| ensures version[j] != '/' {
      if j < i {
        assert version[..i][j] in version[..i] && version[..i][j] == version[j];
      } else if j > i {
        assert version[i + 1..][j - i - 1] in version[i + 1..] && version[i + 1..][j - i - 1] == version[j];
      }
    }
  }

  lemma {:induction false} PartsOfPoolFile(version: string, file: string)
    requires '/' !in version && '/' !in file
    ensures LegacyPaths.Split("/etc/php/" + (version + ("/fpm/pool.d/" + file))) == ["", "etc", "php", version, "fpm", "pool.d", file]
  {
    var parts := ["", "etc", "php", version, "fpm", "pool.d", file];
    LegacyPaths.SplitJoin(parts);
    JoinOfPoolFile(version, file);
  }

  lemma {:induction false} JoinOfPoolFile(version: string, file: string)
    ensures LegacyPaths.Join(["", "etc", "php", version, "fpm", "pool.d", file]) == "/etc/php/" + (version + ("/fpm/pool.d/" + file))
  {
    var behind := LegacyPaths.Join([version, "fpm", "pool.d", file]);
    LegacyPaths.JoinStep(version, ["fpm", "pool.d", file]);
    LegacyPaths.JoinStep("fpm", ["pool.d", file]);
    LegacyPaths.JoinStep("pool.d", [file]);
    LegacyPaths.JoinStep("", ["etc", "php", version, "fpm", "pool.d", file]);
    LegacyPaths.JoinStep("etc", ["php", version, "fpm", "pool.d", file]);
    LegacyPaths.JoinStep("php", [version, "fpm", "pool.d", file]);
  }

  lemma {:induction false} StemOfConf(f: string)
    requires '/' !in f
    ensures EndsWithConf(f) <==> exists stem :: f == stem + ".conf" && '/' !in stem
  {
    if EndsWithConf(f) {
      assert f == f[..|f| - 5] + ".conf";
    }
    forall stem | f == stem + ".conf" ensures EndsWithConf(f) {
      assert f[|f| - 5..] == ".conf";
    }
  }

  lemma {:induction false} PoolFileIn(t: string, version: string, stem: string)
    requires PoolFile(t, version, stem)
    ensures InPools(t)
  {
    VersionHasNoSlash(version);
    PartsOfPoolFile(version, stem + ".conf");
    StemOfConf(stem + ".conf");
  }

  lemma {:induction false} InPoolFile(t: string) returns (stem: string)
    requires InPools(t)
    ensures PoolFile(t, LegacyPaths.Split(t)[3], stem)
  {
    var parts := LegacyPaths.Split(t);
    StemOfConf(parts[6]);
    stem :| parts[6] == stem + ".conf" && '/' !in stem;
    LegacyPaths.CharsOfParts(t);
    SevenParts(parts);
    JoinOfPoolFile(parts[3], parts[6]);
  }

  lemma {:induction false} SevenParts(parts: seq<string>)
    requires |parts| == 7 && parts[0] == "" && parts[1] == "etc" && parts[2] == "php" && parts[4] == "fpm" && parts[5] == "pool.d"
    ensures parts == ["", "etc", "php", parts[3], "fpm", "pool.d", parts[6]]
  {
  }

  /** Which files count as pool files. */
  lemma {:induction false} PoolsInWords(t: string)
    ensures InPools(t) <==> exists version, stem :: PoolFile(t, version, stem)
  {
    if InPools(t) {
      var stem := InPoolFile(t);
    }
    forall version, stem | PoolFile(t, version, stem) ensures InPools(t) { PoolFileIn(t, version, stem); }
  }

  predicate HexRun(s: string, n: nat) { |s| == n && forall c <- s :: '0' <= c <= '9' || 'a' <= c <= 'f' || 'A' <= c <= 'F' }

  /** Five runs of 8, 4, 4, 4 and 12 hexadecimal digits, with a version from 1 to 8 and the usual variant. */
  ghost predicate Grouped(s: string, a: string, b: string, c: string, d: string, e: string) {
    && s == a + ("-" + (b + ("-" + (c + ("-" + (d + ("-" + e)))))))
    && HexRun(a, 8) && HexRun(b, 4) && HexRun(c, 4) && HexRun(d, 4) && HexRun(e, 12)
    && '1' <= c[0] <= '8' && d[0] in {'8', '9', 'a', 'b', 'A', 'B'}
  }

  lemma {:induction false} GroupPlaces(s: string, a: string, b: string, c: string, d: string, e: string)
    requires s == a + ("-" + (b + ("-" + (c + ("-" + (d + ("-" + e)))))))
    requires |a| == 8 && |b| == 4 && |c| == 4 && |d| == 4 && |e| == 12
    ensures |s| == 36 && s[..8] == a && s[8] == '-' && s[9..13] == b && s[13] == '-' && s[14..18] == c && s[18] == '-'
    ensures s[19..23] == d && s[23] == '-' && s[24..] == e
  {
    assert s[9..] == b + ("-" + (c + ("-" + (d + ("-" + e)))));
    assert s[14..] == c + ("-" + (d + ("-" + e)));
    assert s[19..] == d + ("-" + e);
  }

  lemma {:induction false} HexPlaces(s: string, from: nat, to: nat)
    requires from <= to <= |s|
    ensures HexRun(s[from..to], to - from) <==> forall i | from <= i < to :: Hex(s[i])
  {
    if HexRun(s[from..to], to - from) {
      forall i | from <= i < to ensures Hex(s[i]) { assert s[from..to][i - from] == s[i] && s[i] in s[from..to]; }
    }
  }

  /** The pattern of a domain id. */
  lemma {:induction false} UuidInWords(s: string)
    ensures IsUuid(s) <==> exists a, b, c, d, e :: Grouped(s, a, b, c, d, e)
  {
    if IsUuid(s) { UuidSplits(s); }
    forall a, b, c, d, e | Grouped(s, a, b, c, d, e) ensures IsUuid(s) {
      GroupPlaces(s, a, b, c, d, e);
      AllHex(s);
    }
  }

  lemma {:induction false} AllHex(s: string)
    requires |s| == 36
    ensures HexRun(s[..8], 8) && HexRun(s[9..13], 4) && HexRun(s[14..18], 4) && HexRun(s[19..23], 4) && HexRun(s[24..], 12)
       <==> forall i | 0 <= i < 36 && i != 8 && i != 13 && i != 18 && i != 23 :: Hex(s[i])
  {
    HexPlaces(s, 0, 8);
    HexPlaces(s, 9, 13);
    HexPlaces(s, 14, 18);
    HexPlaces(s, 19, 23);
    HexPlaces(s, 24, 36);
    assert s[24..36] == s[24..] && s[0..8] == s[..8];
  }

  lemma {:induction false} UuidSplits(s: string)
    requires IsUuid(s)
    ensures Grouped(s, s[..8], s[9..13], s[14..18], s[19..23], s[24..])
  {
    AllHex(s);
    assert s == s[..8] + ("-" + (s[9..13] + ("-" + (s[14..18] + ("-" + (s[19..23] + ("-" + s[24..])))))));
  }
}
