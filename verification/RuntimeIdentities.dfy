/** From the migrated database to the renderer: which installations its identity checks let through, and
    which pool files their domains get (migrations/runtime-renderer.ts:28-31, 294-326, 561-593;
    agent/src/php/pool-template.ts:130-131). */
module RuntimeIdentities {
  import opened Common
  import opened Claims
  import opened RuntimeKeys
  import opened LegacySource
  import opened SitePlan
  import opened LegacyMap
  import opened MapCoverage
  import opened FinalInvariants
  import opened DomainCentricMigration
  import opened MigrationTheorem
  import LegacyPaths
  import RuntimeRender

  // ------------------------------------------------------------------ loading sites

  predicate NameChar(c: char) { 'a' <= c <= 'z' || '0' <= c <= '9' || c == '_' || c == '-' }

  /** SITE_NAME_RE: a runtime key without dots. */
  predicate SiteNameSafe(name: string) {
    1 <= |name| <= 64 && 'a' <= name[0] <= 'z' && forall c <- name :: NameChar(c)
  }

  /** DOMAIN_ID_RE */
  predicate DomainIdSafe(id: string) {
    1 <= |id| <= 128 && forall c <- id :: IsLetter(c) || '0' <= c <= '9' || c == '_' || c == '-'
  }

  /** One row of the join of sites and domains. */
  predicate RowLoads(s: FinalSite, d: FinalDomain) {
    && s.id != "" && Given(s.rootPath) && Given(d.runtimeKey)
    && SiteNameSafe(s.name) && DomainIdSafe(d.id) && IsSafeRuntimeKey(d.runtimeKey.value)
    && (d.phpVersion.Some? ==> IsPhpVersion(d.phpVersion.value))
  }

  function RowsOfSite(f: Final): FinalSite -> seq<(FinalSite, FinalDomain)> {
    (s: FinalSite) => Map(Filter(f.domains, DomainOn(s.id)), (d: FinalDomain) => (s, d))
  }

  /** SELECT ... FROM sites s INNER JOIN site_domains d ON d.site_id = s.id */
  function JoinedRows(f: Final): seq<(FinalSite, FinalDomain)> { Concat(f.sites, RowsOfSite(f)) }

  ghost predicate IdentitiesLoad(f: Final) {
    forall s, d | s in f.sites && d in f.domains && d.siteId == s.id :: RowLoads(s, d)
  }

  lemma {:induction false} JoinMembers(f: Final, s: FinalSite, d: FinalDomain)
    ensures (s, d) in JoinedRows(f) <==> s in f.sites && d in f.domains && d.siteId == s.id
  {
    var pair := (e: FinalDomain) => (s, e);
    FilterMembers(f.domains, DomainOn(s.id));
    MapMembers(Filter(f.domains, DomainOn(s.id)), pair);
    if s in f.sites && d in f.domains && d.siteId == s.id {
      assert pair(d) in RowsOfSite(f)(s);
      PieceIsIn(f.sites, RowsOfSite(f), s);
    }
    if (s, d) in JoinedRows(f) {
      var owner := PieceOf(f.sites, RowsOfSite(f), (s, d));
      var e := Preimage(Filter(f.domains, DomainOn(owner.id)), (e: FinalDomain) => (owner, e), (s, d));
    }
  }

  /** The identity checks of loadSites, row by row; false when one throws. */
  method LoadIdentities(f: Final) returns (ok: bool)
    ensures ok <==> IdentitiesLoad(f)
  {
    var rows := JoinedRows(f);
    for i := 0 to |rows|
      invariant forall row <- rows[..i] :: RowLoads(row.0, row.1)
    {
      NextPrefix(rows, i);
      if !RowLoads(rows[i].0, rows[i].1) {
        JoinMembers(f, rows[i].0, rows[i].1);
        assert (rows[i].0, rows[i].1) in rows;
        return false;
      }
    }
    WholePrefix(rows);
    forall s, d | s in f.sites && d in f.domains && d.siteId == s.id ensures RowLoads(s, d) {
      JoinMembers(f, s, d);
      assert RowLoads((s, d).0, (s, d).1);
    }
    ok := true;
  }

  // --------------------------------------------------------- what the mapper lets through

  /** A name the mapper accepts is one the renderer accepts exactly when it has no dot. */
  lemma {:induction false} NamesDifferByDots(name: string)
    requires IsSafeRuntimeKey(name)
    ensures SiteNameSafe(name) <==> '.' !in name
  {
  }

  lemma {:induction false} OwnSockets(env: Env)
    ensures LooserSockets(env, env)
  {
  }

  /** What the mapper guarantees of a migrated domain and its site, as far as the loader looks. */
  lemma {:induction false} LoadableFacts(env: Env, t: Tables, d: Domain) returns (site: Site)
    requires LegacyOk(env, t) && d in DomainsOf(t.domains)
    ensures site in SitesOf(t.sites) && site.id == d.siteId && SitePasses(env, t, site) && d in DomainsFor(env, t, site)
    ensures IsSafeRuntimeKey(site.name)
    ensures var c := MirrorOf(env, t)(d);
            && c.id == d.id && c.siteId == d.siteId
            && c.runtimeKey == Some(KeyFor(env, site, PrimaryOf(DomainsFor(env, t, site)).id, d.id))
            && IsSafeRuntimeKey(c.runtimeKey.value) && (c.phpVersion.Some? ==> IsPhpVersion(c.phpVersion.value))
  {
    OwnSockets(env);
    var primaryId, workers;
    site, primaryId, workers := DomainFacts(env, env, t, d);
  }

  lemma {:induction false} SiteIsGiven(rows: seq<RawSite>, site: Site)
    requires site in SitesOf(rows)
    ensures site.id != "" && site.rootPath != ""
  {
    FilterMembers(rows, SiteComplete);
    var row := Preimage(Filter(rows, SiteComplete), SiteOf, site);
  }

  lemma {:induction false} RowOfFacts(site: Site, c: FinalDomain)
    requires site.id != "" && site.rootPath != "" && IsSafeRuntimeKey(site.name)
    requires c.runtimeKey.Some? && IsSafeRuntimeKey(c.runtimeKey.value)
    requires c.phpVersion.Some? ==> IsPhpVersion(c.phpVersion.value)
    ensures RowLoads(KeptSite(site), c) <==> '.' !in site.name && DomainIdSafe(c.id)
  {
    NamesDifferByDots(site.name);
  }

  lemma {:induction false} RowOfMirror(env: Env, t: Tables, s: FinalSite, d: Domain)
    requires LegacyOk(env, t) && s in Migrated(env, t).sites && d in DomainsOf(t.domains) && d.siteId == s.id
    ensures RowLoads(s, MirrorOf(env, t)(d)) <==> '.' !in s.name && DomainIdSafe(d.id)
  {
    var site := LoadableFacts(env, t, d);
    SiteOfCopy(env, t, s, site);
    SiteIsGiven(t.sites, site);
    RowOfFacts(site, MirrorOf(env, t)(d));
  }

  lemma {:induction false} SiteOfCopy(env: Env, t: Tables, s: FinalSite, site: Site)
    requires LegacyOk(env, t) && s in Migrated(env, t).sites && site in SitesOf(t.sites) && site.id == s.id
    ensures s == KeptSite(site)
  {
    var other := Preimage(SitesOf(t.sites), KeptSite, s);
    MappableIds(env, t);
    SameSite(SitesOf(t.sites), site, other);
  }

  /** Mapper and checker accept site names with dots, the renderer never does. An installation the mapper
      accepts passes these identity checks exactly when no site name has a dot and every domain id has the
      renderer's form. */
  lemma {:induction false} LoadsExactlyWithoutDots(env: Env, t: Tables)
    requires LegacyOk(env, t)
    ensures IdentitiesLoad(Migrated(env, t)) <==>
              && (forall s <- SitesOf(t.sites) :: '.' !in s.name)
              && (forall d <- DomainsOf(t.domains) :: DomainIdSafe(d.id))
  {
    var f := Migrated(env, t);
    DomainsMirrored(env, t);
    if IdentitiesLoad(f) {
      forall s <- SitesOf(t.sites) ensures '.' !in s.name { SiteLoads(env, t, s); }
      forall d <- DomainsOf(t.domains) ensures DomainIdSafe(d.id) { DomainLoads(env, t, d); }
    }
    if (forall s <- SitesOf(t.sites) :: '.' !in s.name) && (forall d <- DomainsOf(t.domains) :: DomainIdSafe(d.id)) {
      forall s, c | s in f.sites && c in f.domains && c.siteId == s.id ensures RowLoads(s, c) {
        var d := Preimage(DomainsOf(t.domains), MirrorOf(env, t), c);
        var owner := LoadableFacts(env, t, d);
        var site := Preimage(SitesOf(t.sites), KeptSite, s);
        RowOfMirror(env, t, s, d);
      }
    }
  }

  lemma {:induction false} DomainLoads(env: Env, t: Tables, d: Domain)
    requires LegacyOk(env, t) && IdentitiesLoad(Migrated(env, t)) && d in DomainsOf(t.domains)
    ensures DomainIdSafe(d.id)
    ensures forall s <- SitesOf(t.sites) :: s.id == d.siteId ==> '.' !in s.name
  {
    var site := LoadableFacts(env, t, d);
    DomainsMirrored(env, t);
    ImageOf(DomainsOf(t.domains), MirrorOf(env, t), d);
    forall s <- SitesOf(t.sites) | s.id == d.siteId ensures '.' !in s.name && DomainIdSafe(d.id) {
      ImageOf(SitesOf(t.sites), KeptSite, s);
      RowOfMirror(env, t, KeptSite(s), d);
    }
  }

  lemma {:induction false} SiteLoads(env: Env, t: Tables, site: Site)
    requires LegacyOk(env, t) && IdentitiesLoad(Migrated(env, t)) && site in SitesOf(t.sites)
    ensures '.' !in site.name
  {
    MappableSite(env, t, site);
    var primary := PrimaryFacts(env, t, site);
    DomainLoads(env, t, primary);
  }

  // ------------------------------------------------------------------------ pool files

  /** The pool name of a runtime key: dots become underscores. */
  function PoolName(key: string): (r: string)
    ensures |r| == |key|
    ensures forall i | 0 <= i < |key| :: r[i] == if key[i] == '.' then '_' else key[i]
  {
    seq(|key|, i requires 0 <= i < |key| => if key[i] == '.' then '_' else key[i])
  }

  function PoolFile(version: string, key: string): string {
    "/etc/php/" + version + "/fpm/pool.d/" + PoolName(key) + ".conf"
  }

  /** Keys that differ at most in dots against underscores. */
  predicate SameButDots(a: string, b: string) {
    |a| == |b| && forall i | 0 <= i < |a| :: a[i] == b[i] || (a[i] in "._" && b[i] in "._")
  }

  lemma {:induction false} PoolNamesCollide(a: string, b: string)
    ensures PoolName(a) == PoolName(b) <==> SameButDots(a, b)
  {
    if PoolName(a) == PoolName(b) {
      forall i | 0 <= i < |a| ensures a[i] == b[i] || (a[i] in "._" && b[i] in "._") {
        assert PoolName(a)[i] == PoolName(b)[i];
      }
    }
  }

  lemma {:induction false} SameHead(v: string, x: string, w: string, y: string)
    requires '/' !in v && '/' !in w && v + "/" + x == w + "/" + y
    ensures v == w && x == y
  {
    LegacyPaths.SplitPrefix(v, x);
    LegacyPaths.SplitPrefix(w, y);
    var text := v + "/" + x;
    assert v == LegacyPaths.Split(text)[0] && w == LegacyPaths.Split(text)[0];
    assert x == text[|v| + 1..] && y == text[|w| + 1..];
  }

  lemma {:induction false} SameTail(a: string, b: string, tail: string)
    requires a + tail == b + tail
    ensures a == b
  {
    assert |a| == |b| && a == (a + tail)[..|a|] && b == (b + tail)[..|b|];
  }

  function PoolTail(key: string): string { "fpm/pool.d/" + PoolName(key) + ".conf" }

  lemma {:induction false} SplitPoolFile(version: string, key: string)
    ensures PoolFile(version, key) == "/etc/php/" + (version + "/" + PoolTail(key))
  {
  }

  lemma {:induction false} SameStart(start: string, a: string, b: string)
    ensures start + a == start + b <==> a == b
  {
    assert (start + a)[|start|..] == a && (start + b)[|start|..] == b;
  }

  lemma {:induction false} SamePoolTail(a: string, b: string)
    requires PoolTail(a) == PoolTail(b)
    ensures PoolName(a) == PoolName(b)
  {
    assert PoolTail(a) == "fpm/pool.d/" + (PoolName(a) + ".conf") && PoolTail(b) == "fpm/pool.d/" + (PoolName(b) + ".conf");
    SameStart("fpm/pool.d/", PoolName(a) + ".conf", PoolName(b) + ".conf");
    SameTail(PoolName(a), PoolName(b), ".conf");
  }

  /** One pool file for two domains: the same PHP version, and keys equal up to dots and underscores. */
  lemma {:induction false} PoolFilesCollide(v: string, a: string, w: string, b: string)
    requires IsPhpVersion(v) && IsPhpVersion(w)
    ensures PoolFile(v, a) == PoolFile(w, b) <==> v == w && SameButDots(a, b)
  {
    PoolNamesCollide(a, b);
    if PoolFile(v, a) == PoolFile(w, b) {
      SplitPoolFile(v, a);
      SplitPoolFile(w, b);
      SameStart("/etc/php/", v + "/" + PoolTail(a), w + "/" + PoolTail(b));
      VersionHasNoSlash(v);
      VersionHasNoSlash(w);
      SameHead(v, PoolTail(a), w, PoolTail(b));
      SamePoolTail(a, b);
    }
  }

  lemma {:induction false} VersionHasNoSlash(v: string)
    requires IsPhpVersion(v)
    ensures '/' !in v
  {
    var i :| 0 <= i < |v| && v[i] == '.' && Digits(v[..i]) && Digits(v[i + 1..]);
    assert v == v[..i] + [v[i]] + v[i + 1..];
  }

  /** Pools as the template places them: pool i serves PHP version versions[i]. */
  ghost predicate TemplatePools(pools: seq<RuntimeRender.Pool>, versions: seq<string>) {
    && |versions| == |pools|
    && forall i | 0 <= i < |pools| ::
         IsPhpVersion(versions[i]) && RuntimeRender.PoolTarget(pools[i]) == PoolFile(versions[i], pools[i].runtimeKey)
  }

  /** The renderer refuses a shared pool file exactly when two pools have one PHP version and keys that
      differ at most in dots against underscores. */
  method ClaimTemplatePools(pools: seq<RuntimeRender.Pool>, ghost versions: seq<string>) returns (ok: bool)
    requires TemplatePools(pools, versions)
    ensures ok <==> forall i, j | 0 <= i < j < |pools| ::
                      versions[i] != versions[j] || !SameButDots(pools[i].runtimeKey, pools[j].runtimeKey)
  {
    var byTarget, byDomain;
    ok, byTarget, byDomain := RuntimeRender.ClaimPools(pools);
    SharedPoolFiles(pools, versions);
  }

  lemma {:induction false} SharedPoolFiles(pools: seq<RuntimeRender.Pool>, versions: seq<string>)
    requires TemplatePools(pools, versions)
    ensures Distinct(Map(pools, RuntimeRender.PoolTarget)) <==>
              forall i, j | 0 <= i < j < |pools| ::
                versions[i] != versions[j] || !SameButDots(pools[i].runtimeKey, pools[j].runtimeKey)
  {
    var targets := Map(pools, RuntimeRender.PoolTarget);
    forall i, j | 0 <= i < j < |pools|
      ensures targets[i] != targets[j] <==> versions[i] != versions[j] || !SameButDots(pools[i].runtimeKey, pools[j].runtimeKey)
    {
      PoolFilesCollide(versions[i], pools[i].runtimeKey, versions[j], pools[j].runtimeKey);
    }
  }

  // -------------------------------------------------------- the mapped installation

  /** A hex digest. */
  ghost predicate HexHash(env: Env) {
    forall id :: forall c <- env.hashHex(id) :: '0' <= c <= '9' || 'a' <= c <= 'f'
  }

  predicate HasPhp(c: FinalDomain) { c.phpVersion.Some? }

  function FinalPoolFile(c: FinalDomain): string { PoolFile(OrEmpty(c.phpVersion), OrEmpty(c.runtimeKey)) }

  lemma {:induction false} NoDotsNoChange(a: string, b: string)
    requires '.' !in a && '.' !in b
    ensures SameButDots(a, b) <==> a == b
  {
  }

  lemma {:induction false} KeyHasNoDot(env: Env, site: Site, primaryId: string, id: string)
    requires HexHash(env) && '.' !in site.name
    ensures '.' !in KeyFor(env, site, primaryId, id)
  {
    var key, hex := DeriveSecondaryRuntimeKey(env.hashHex, id), env.hashHex(id);
    forall i | 0 <= i < |key| ensures key[i] != '.' {
      if i > 0 { assert key[i] == hex[i - 1] && hex[i - 1] in hex; }
    }
  }

  lemma {:induction false} LoadedKeyHasNoDot(env: Env, t: Tables, d: Domain)
    requires LegacyOk(env, t) && HexHash(env) && IdentitiesLoad(Migrated(env, t)) && d in DomainsOf(t.domains)
    ensures MirrorOf(env, t)(d).runtimeKey.Some? && '.' !in MirrorOf(env, t)(d).runtimeKey.value
  {
    var site := LoadableFacts(env, t, d);
    SiteLoads(env, t, site);
    KeyHasNoDot(env, site, PrimaryOf(DomainsFor(env, t, site)).id, d.id);
  }

  lemma {:induction false} OneKeyOneDomain(env: Env, t: Tables, a: Domain, b: Domain)
    requires LegacyOk(env, t) && a in DomainsOf(t.domains) && b in DomainsOf(t.domains)
    requires MirrorOf(env, t)(a).runtimeKey == MirrorOf(env, t)(b).runtimeKey
    ensures a.id == b.id
  {
    OwnSockets(env);
    ClaimIsStaged(env, env, t, a);
    ClaimIsStaged(env, env, t, b);
    var siteA := LoadableFacts(env, t, a);
    var siteB := LoadableFacts(env, t, b);
    CompatibleMeansFunctional(RuntimeClaimsOf(env, t, OrderedSites(env, t)));
  }

  lemma {:induction false} PoolsOfTwo(env: Env, t: Tables, a: Domain, b: Domain)
    requires LegacyOk(env, t) && HexHash(env) && IdentitiesLoad(Migrated(env, t))
    requires a in DomainsOf(t.domains) && b in DomainsOf(t.domains)
    requires HasPhp(MirrorOf(env, t)(a)) && HasPhp(MirrorOf(env, t)(b))
    requires FinalPoolFile(MirrorOf(env, t)(a)) == FinalPoolFile(MirrorOf(env, t)(b))
    ensures a.id == b.id
  {
    var c, d := MirrorOf(env, t)(a), MirrorOf(env, t)(b);
    var siteA := LoadableFacts(env, t, a);
    var siteB := LoadableFacts(env, t, b);
    LoadedKeyHasNoDot(env, t, a);
    LoadedKeyHasNoDot(env, t, b);
    PoolFilesCollide(c.phpVersion.value, c.runtimeKey.value, d.phpVersion.value, d.runtimeKey.value);
    NoDotsNoChange(c.runtimeKey.value, d.runtimeKey.value);
    OneKeyOneDomain(env, t, a, b);
  }

  /** Once an installation of the mapper has loaded, no two of its PHP domains share a pool file: the
      renderer's refusal of shared files is never met on this route. */
  lemma {:induction false} MappedPoolsAreApart(env: Env, t: Tables)
    requires LegacyOk(env, t) && HexHash(env) && IdentitiesLoad(Migrated(env, t))
    ensures Distinct(Map(Filter(Migrated(env, t).domains, HasPhp), FinalPoolFile))
  {
    var mirror, domains := MirrorOf(env, t), DomainsOf(t.domains);
    var withPhp := (d: Domain) => HasPhp(mirror(d));
    var own := Filter(domains, withPhp);
    DomainsMirrored(env, t);
    FilterMap(domains, mirror, HasPhp, withPhp);
    FilterMembers(domains, withPhp);
    MappableIds(env, t);
    FilterKeepsDistinct(domains, withPhp, DomainId);
    var files := Map(Map(own, mirror), FinalPoolFile);
    forall i, j | 0 <= i < j < |own| ensures files[i] != files[j] {
      assert own[i] in own && own[j] in own;
      assert Map(own, DomainId)[i] != Map(own, DomainId)[j];
      if files[i] == files[j] { PoolsOfTwo(env, t, own[i], own[j]); }
    }
  }

  /** A dotted site name is enough. */
  lemma {:induction false} DotMeansRefused(env: Env, t: Tables, site: Site)
    requires LegacyOk(env, t) && site in SitesOf(t.sites) && |site.name| > 1 && site.name[1] == '.'
    ensures !IdentitiesLoad(Migrated(env, t))
  {
    if IdentitiesLoad(Migrated(env, t)) { SiteLoads(env, t, site); }
  }
}
