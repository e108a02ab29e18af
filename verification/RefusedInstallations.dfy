/** Installations the mapper accepts and a later step refuses: one site with one domain, in four variants
    (migrations/release/mapper.ts:519-919; migrations/runtime-renderer.ts:28-31, 307;
    api/prisma/migrations/z20260731000000_domain_centric_applications/migration.sql:85-94, 166, 574-594). */
module RefusedInstallations {
  import opened Common
  import opened Claims
  import opened RuntimeKeys
  import opened LegacySource
  import opened SitePlan
  import opened LegacyMap
  import opened MapCoverage
  import opened DomainCentricMigration
  import opened MigrationTheorem
  import opened RuntimeIdentities
  import opened MapGuard
  import opened HostnameRegistry
  import FinalInvariants
  import LegacyPaths
  import LegacyPool
  import PrimaryDatabase

  function TinySite(id: string, name: string, path: string): Site {
    Site(id, name, "CUSTOM", "RUNNING", None, "/srv/a", Some(path), NoNumber, None, None)
  }

  function TinyDomain(id: string): Domain { Domain("d", id, "example.org", true, 0, "[]", None, NoNumber) }

  function Tiny(id: string, name: string, path: string): Tables {
    Tables([RawSite(Some(id), Some(name), Some("CUSTOM"), Some("RUNNING"), None, Some("/srv/a"), Some(path), NoNumber, None, None)],
           [RawDomain(Some("d"), Some(id), Some("example.org"), Some(true), Whole(0), Some("[]"), None, NoNumber)],
           [])
  }

  function TinyHost(host: string): Text { if Filled(host) then Some(LegacyPool.Lower(host)) else None }

  const TWENTY := "00000000000000000000"

  /** Surroundings that object to nothing; `aliases` is what the alias text of the domain decodes to. */
  function TinyEnv(aliases: seq<Text>): Env {
    Env(TinyHost, (raw: string) => Some(aliases), (id: string) => TWENTY, (a: string, b: string) => false,
        (text: string) => false, map[], CHECKER_DIRECTORY, SOCKET_MAX)
  }

  ghost predicate Usable(id: string, name: string, path: string, aliases: seq<Text>) {
    id != "" && IsSafeRuntimeKey(name) && LegacyPaths.Clean(path) && forall item <- aliases :: item.Some? && Filled(item.value)
  }

  // ------------------------------------------------------------- the mapper accepts

  lemma {:induction false} TinyRecords(id: string, name: string, path: string)
    requires id != "" && name != ""
    ensures SitesOf(Tiny(id, name, path).sites) == [TinySite(id, name, path)]
    ensures DomainsOf(Tiny(id, name, path).domains) == [TinyDomain(id)] && DatabasesOf(Tiny(id, name, path).databases) == []
  {
    var t := Tiny(id, name, path);
    assert t.sites[1..] == [] && t.domains[1..] == [];
    assert Filter(t.sites, SiteComplete) == t.sites && Filter(t.domains, DomainComplete) == t.domains;
    assert Map(t.sites, SiteOf) == [TinySite(id, name, path)] && Map(t.domains, DomainOf) == [TinyDomain(id)];
  }

  lemma {:induction false} TinyLists(id: string, name: string, path: string, aliases: seq<Text>)
    requires id != "" && name != ""
    ensures var env, t, site := TinyEnv(aliases), Tiny(id, name, path), TinySite(id, name, path);
            OrderedSites(env, t) == [site] && DomainsFor(env, t, site) == [TinyDomain(id)] && DatabasesFor(t, site) == []
  {
    TinyRecords(id, name, path);
    assert [TinySite(id, name, path)][1..] == [] && [TinyDomain(id)][1..] == [];
    assert Filter([TinyDomain(id)], OnSite(id)) == [TinyDomain(id)];
  }

  lemma {:induction false} TinyPath(id: string, name: string, path: string)
    requires LegacyPaths.Clean(path)
    ensures MappedPath(TinySite(id, name, path), Some(path)) == Some(path)
  {
    LegacyPaths.NormalizedFixedPoint(path);
    LegacyPaths.NormalizedIsContained("/srv/a", path);
  }

  lemma {:induction false} TinyPrimary(id: string)
    ensures var sorted := [TinyDomain(id)];
            OnePrimary(sorted) && PrimaryOf(sorted) == TinyDomain(id) && PositionsPass(sorted)
  {
    var sorted := [TinyDomain(id)];
    assert sorted[1..] == [] && Filter(sorted, Primary) == sorted;
    assert Map(sorted, PositionOf) == [0];
  }

  lemma {:induction false} TinyMappable(id: string, name: string, path: string, aliases: seq<Text>)
    requires Usable(id, name, path, aliases)
    ensures PrimaryMappable(TinyEnv(aliases), TinySite(id, name, path), [TinyDomain(id)], [], TinyDomain(id))
  {
    var env, site := TinyEnv(aliases), TinySite(id, name, path);
    TinyPath(id, name, path);
    PrimaryDatabase.SilenceMeansNoMysql(site, TinyDomain(id), [], EvidenceOf(env, "d").modxDatabaseName);
    FilterNone([TinyDomain(id)], PhpOn(env, site, "d"));
  }

  lemma {:induction false} TinySitePasses(id: string, name: string, path: string, aliases: seq<Text>)
    requires Usable(id, name, path, aliases)
    ensures SitePasses(TinyEnv(aliases), Tiny(id, name, path), TinySite(id, name, path))
  {
    TinyLists(id, name, path, aliases);
    TinyPrimary(id);
    TinyMappable(id, name, path, aliases);
  }

  lemma {:induction false} TinyAliases(env: Env, items: seq<Text>)
    requires env.hostname == TinyHost && forall item <- items :: item.Some? && Filled(item.value)
    ensures AliasNames(env, items).Some?
  {
    if items != [] {
      TinyAliases(env, items[..|items| - 1]);
      assert items[|items| - 1] in items;
    }
  }

  lemma {:induction false} TinyNames(id: string, aliases: seq<Text>)
    requires forall item <- aliases :: item.Some? && Filled(item.value)
    ensures DomainFits(TinyEnv(aliases), TinyDomain(id))
  {
    TinyAliases(TinyEnv(aliases), aliases);
    assert Filled("example.org") by { assert "example.org"[0] in "example.org"; }
  }

  /** One domain cannot be in conflict with itself. */
  lemma {:induction false} TinyHosts(env: Env, d: Domain)
    ensures Compatible(Concat([d], HostClaims(env)))
  {
    var claims := HostClaims(env)(d);
    ConcatOne([], d, HostClaims(env));
    assert [] + [d] == [d] && [] + claims == claims;
    assert forall i | 0 <= i < |claims| :: claims[i].owner == d.id && !claims[i].exclusive;
  }

  lemma {:induction false} TinyReadable(id: string, name: string, path: string, aliases: seq<Text>)
    requires Usable(id, name, path, aliases)
    ensures TablesReadable(TinyEnv(aliases), Tiny(id, name, path)) && ReferencesPass(Tiny(id, name, path))
  {
    TinyRecords(id, name, path);
    TinyNames(id, aliases);
    TinyHosts(TinyEnv(aliases), TinyDomain(id));
  }

  lemma {:induction false} TinyClaims(id: string, name: string, path: string, aliases: seq<Text>)
    requires id != "" && name != ""
    ensures var env, t := TinyEnv(aliases), Tiny(id, name, path); Compatible(RuntimeClaimsOf(env, t, OrderedSites(env, t)))
  {
    var env, t, site := TinyEnv(aliases), Tiny(id, name, path), TinySite(id, name, path);
    TinyLists(id, name, path, aliases);
    TinyPrimary(id);
    ConcatOne([], site, ClaimsIn(env, t));
    TinyRuntimeClaims(env, site, id);
    var claims := RuntimeClaims(env, site, [TinyDomain(id)]);
    assert [] + [site] == [site] && [] + claims == claims;
  }

  lemma {:induction false} TinyRuntimeClaims(env: Env, site: Site, id: string)
    ensures Compatible(RuntimeClaims(env, site, [TinyDomain(id)]))
  {
    TinyPrimary(id);
    assert Map([TinyDomain(id)], ClaimFor(env, site, "d")) == [Claim(site.name, "d", false)];
  }

  /** Every variant is mapped without a blocker. */
  lemma {:induction false} TinyIsMapped(id: string, name: string, path: string, aliases: seq<Text>)
    requires Usable(id, name, path, aliases)
    ensures LegacyOk(TinyEnv(aliases), Tiny(id, name, path))
  {
    TinyReadable(id, name, path, aliases);
    TinyLists(id, name, path, aliases);
    TinySitePasses(id, name, path, aliases);
    TinyClaims(id, name, path, aliases);
  }

  lemma {:induction false} TinyRules(aliases: seq<Text>)
    ensures LongHexHash(TinyEnv(aliases)) && HostRules(TinyEnv(aliases))
  {
    forall a, b | LegacyPool.Lower(a) == LegacyPool.Lower(b) ensures TinyHost(a) == TinyHost(b) {
      SameFilling(a, b);
    }
  }

  lemma {:induction false} SameFilling(a: string, b: string)
    requires LegacyPool.Lower(a) == LegacyPool.Lower(b)
    ensures Filled(a) <==> Filled(b)
  {
    assert |a| == |LegacyPool.Lower(a)| == |b|;
    forall i | 0 <= i < |a| ensures a[i] != ' ' <==> b[i] != ' ' {
      assert LegacyPool.Lower(a)[i] == LegacyPool.LowerChar(a[i]) && LegacyPool.Lower(b)[i] == LegacyPool.LowerChar(b[i]);
    }
    if c :| c in a && c != ' ' {
      var i :| 0 <= i < |a| && a[i] == c;
      assert b[i] in b;
    }
    if c :| c in b && c != ' ' {
      var i :| 0 <= i < |b| && b[i] == c;
      assert a[i] in a;
    }
  }

  lemma {:induction false} PlainPath(path: string)
    requires path != "" && forall c <- path :: c == 'a' || c == 'w'
    ensures LegacyPaths.Clean(path)
  {
    LegacyPaths.SplitPrefix(path, "");
    assert path[0] in path;
  }

  // ------------------------------------------------------------- later steps refuse

  /** A dotted site name: the renderer does not load what the site becomes. */
  lemma {:induction false} DottedSiteIsRefused()
    ensures var env, t := TinyEnv([]), Tiny("s", "a.b", "www"); LegacyOk(env, t) && !IdentitiesLoad(Migrated(env, t))
  {
    PlainPath("www");
    TinyIsMapped("s", "a.b", "www", []);
    TinyRecords("s", "a.b", "www");
    DotMeansRefused(TinyEnv([]), Tiny("s", "a.b", "www"), TinySite("s", "a.b", "www"));
  }

  /** A blank site id: the guard before the table copy stops the migration. */
  lemma {:induction false} BlankIdIsRefused()
    ensures var env, t := TinyEnv([]), Tiny(" ", "site", "www");
            LegacyOk(env, t) && LongHexHash(env) && !RowsGuarded(t, MapRows(env, t))
  {
    PlainPath("www");
    TinyIsMapped(" ", "site", "www", []);
    TinyRecords(" ", "site", "www");
    TinyRules([]);
    BlankSiteIsRefused(TinyEnv([]), Tiny(" ", "site", "www"), TinySite(" ", "site", "www"));
  }

  /** A path of more than 255 characters: the guard stops the migration as well. */
  lemma {:induction false} LongPathIsRefused(path: string)
    requires |path| > MAX_PATH && forall c <- path :: c == 'a'
    ensures var env, t := TinyEnv([]), Tiny("s", "site", path);
            LegacyOk(env, t) && LongHexHash(env) && !RowsGuarded(t, MapRows(env, t))
  {
    PlainPath(path);
    TinyIsMapped("s", "site", path, []);
    TinyRecords("s", "site", path);
    TinyRules([]);
    TinyPath("s", "site", path);
    LongDomainIsRefused(TinyEnv([]), Tiny("s", "site", path), TinySite("s", "site", path), TinyDomain("s"));
  }

  /** A domain that lists its own name as an alias: mapper and checker pass, the registry's key breaks. */
  lemma {:induction false} OwnAliasIsRefused()
    ensures var env, t := TinyEnv([Some("example.org")]), Tiny("s", "site", "www");
            && LegacyOk(env, t) && HostRules(env) && FinalInvariants.FinalOk(env, Migrated(env, t), BaselineOf(t))
            && !RegistryStands(env, Migrated(env, t))
  {
    var aliases := [Some("example.org")];
    PlainPath("www");
    assert Filled("example.org") by { assert "example.org"[0] in "example.org"; }
    TinyIsMapped("s", "site", "www", aliases);
    TinyRecords("s", "site", "www");
    TinyRules(aliases);
    OwnAliasRepeats(aliases);
    TinyIsChecked(TinyEnv(aliases), Tiny("s", "site", "www"));
    RepeatIsRefused(TinyEnv(aliases), Tiny("s", "site", "www"), TinyDomain("s"));
  }

  lemma {:induction false} TinyIsChecked(env: Env, t: Tables)
    requires LegacyOk(env, t)
    ensures FinalInvariants.FinalOk(env, Migrated(env, t), BaselineOf(t))
  {
    OwnSockets(env);
    MappedMeansChecked(env, env, t);
  }

  lemma {:induction false} OwnAliasRepeats(aliases: seq<Text>)
    requires aliases == [Some("example.org")]
    ensures !Distinct(Spellings(TinyEnv(aliases), TinyDomain("s")))
  {
    var spellings := Spellings(TinyEnv(aliases), TinyDomain("s"));
    assert Map(aliases, OrEmpty) == ["example.org"];
    assert spellings[0] == spellings[1];
  }
}
