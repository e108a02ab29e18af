/** The whole legacy map (migrations/release/mapper.ts:519-919): when it has no blockers, and the staging
    rows it then consists of. */
module LegacyMap {
  import opened Common
  import opened Claims
  import opened LegacySource
  import opened PrimaryDatabase
  import opened SitePlan

  datatype Tables = Tables(sites: seq<RawSite>, domains: seq<RawDomain>, databases: seq<RawDatabase>)

  function BySiteId(less: (string, string) -> bool): (Site, Site) -> bool {
    (l: Site, r: Site) => less(l.id, r.id)
  }

  function OrderedSites(env: Env, t: Tables): seq<Site> { Sort(SitesOf(t.sites), BySiteId(env.less)) }

  function DomainsFor(env: Env, t: Tables, site: Site): seq<Domain> {
    SortedDomains(env, Filter(DomainsOf(t.domains), OnSite(site.id)))
  }

  function DatabasesFor(t: Tables, site: Site): seq<Database> {
    Filter(DatabasesOf(t.databases), ForSite(site.id))
  }

  // ------------------------------------------------------------------ the verdict

  ghost predicate SitePasses(env: Env, t: Tables, site: Site) {
    SiteMappable(env, site, DomainsFor(env, t, site), DatabasesFor(t, site))
  }

  ghost function SitePassesIn(env: Env, t: Tables): Site -> bool { (site: Site) => SitePasses(env, t, site) }

  /** A database belongs to an existing site, and its domain, if it names one, exists on the same site. */
  ghost predicate OwnedWithin(t: Tables, d: Database) {
    d.siteId.Some? && d.siteId.value in Map(SitesOf(t.sites), SiteId)
    && (d.siteDomainId.Some? ==>
          exists owner <- DomainsOf(t.domains) :: owner.id == d.siteDomainId.value && owner.siteId == d.siteId.value)
  }

  ghost predicate ReferencesPass(t: Tables) {
    && (forall d <- DomainsOf(t.domains) :: d.siteId in Map(SitesOf(t.sites), SiteId))
    && (forall d <- DatabasesOf(t.databases) :: OwnedWithin(t, d))
  }

  function ClaimsIn(env: Env, t: Tables): Site -> seq<Claim> {
    (site: Site) => RuntimeClaims(env, site, DomainsFor(env, t, site))
  }

  function RuntimeClaimsOf(env: Env, t: Tables, sites: seq<Site>): seq<Claim> { Concat(sites, ClaimsIn(env, t)) }

  ghost predicate TablesReadable(env: Env, t: Tables) {
    SitesReadable(env, t.sites) && DomainsReadable(env, t.domains) && DatabasesReadable(t.databases)
  }

  /** What a legacy installation must satisfy to be mapped, said without the algorithm. */
  ghost predicate LegacyOk(env: Env, t: Tables) {
    && TablesReadable(env, t)
    && ReferencesPass(t)
    && All(OrderedSites(env, t), SitePassesIn(env, t))
    && Compatible(RuntimeClaimsOf(env, t, OrderedSites(env, t)))
  }

  // --------------------------------------------------------------------- the rows

  ghost function RowsIn(env: Env, t: Tables): Site -> seq<MapRow> {
    (site: Site) =>
      if SitePasses(env, t, site) then SiteRows(env, site, DomainsFor(env, t, site), DatabasesFor(t, site)) else []
  }

  function KindRank(kind: Kind): nat {
    match kind case SiteKind => 0 case DomainKind => 1 case DatabaseKind => 2
  }

  function ByKindAndId(less: (string, string) -> bool): (MapRow, MapRow) -> bool {
    (l: MapRow, r: MapRow) => KindRank(l.kind) < KindRank(r.kind) || (l.kind == r.kind && less(l.sourceId, r.sourceId))
  }

  /** sortMapRows */
  function SortMapRows(env: Env, rows: seq<MapRow>): seq<MapRow> { Sort(rows, ByKindAndId(env.less)) }

  /** The rows of a map without blockers. */
  ghost function MapRows(env: Env, t: Tables): seq<MapRow>
    requires LegacyOk(env, t)
  {
    SortMapRows(env, Concat(OrderedSites(env, t), RowsIn(env, t)))
  }

  // ------------------------------------------------------------------ the mapper

  lemma {:induction false} DomainLookup(env: Env, t: Tables, byId: map<string, Domain>, siteIds: set<string>, d: Database)
    requires Distinct(Map(DomainsOf(t.domains), DomainId)) && IndexesIds(byId, DomainsOf(t.domains))
    requires siteIds == Elements(Map(SitesOf(t.sites), SiteId))
    ensures RefersWithin(siteIds, byId, d) <==> OwnedWithin(t, d)
  {
    var domains := DomainsOf(t.domains);
    if d.siteDomainId.Some? && d.siteDomainId.value in byId && d.siteId.Some? {
      var named := byId[d.siteDomainId.value];
      forall owner <- domains | owner.id == named.id ensures owner == named {
        SameIdSameDomain(domains, owner, named);
      }
    }
  }

  lemma {:induction false} SameIdSameDomain(domains: seq<Domain>, a: Domain, b: Domain)
    requires Distinct(Map(domains, DomainId)) && a in domains && b in domains && a.id == b.id
    ensures a == b
  {
    var i :| 0 <= i < |domains| && domains[i] == a;
    var j :| 0 <= j < |domains| && domains[j] == b;
    var ids := Map(domains, DomainId);
    assert ids[i] == a.id && ids[j] == b.id;
  }

  /** The lists handed to the site loop are those of each site. */
  ghost predicate ListsFit(t: Tables, sites: seq<Site>, domains: map<string, seq<Domain>>, databases: map<string, seq<Database>>) {
    forall site <- sites :: ListAt(domains, site.id) == Filter(DomainsOf(t.domains), OnSite(site.id))
                            && ListAt(databases, site.id) == DatabasesFor(t, site)
  }

  /** Reading and cross-referencing the three tables. */
  method ReadTables(env: Env, t: Tables)
    returns (sites: seq<Site>, domains: map<string, seq<Domain>>, databases: map<string, seq<Database>>, blockers: seq<Blocker>)
    ensures sites == SitesOf(t.sites)
    ensures ListsFit(t, sites, domains, databases)
    ensures blockers == [] <==> TablesReadable(env, t) && ReferencesPass(t)
  {
    var siteIds, siteBlockers;
    sites, siteIds, siteBlockers := ReadSites(env, t.sites);
    var allDomains, domainBlockers := ReadDomains(env, t.domains);
    var allDatabases, databaseBlockers := ReadDatabases(t.databases);
    var byId, unknownSites, misplaced;
    domains, byId, unknownSites := GroupDomains(siteIds, allDomains);
    databases, misplaced := GroupDatabases(siteIds, byId, allDatabases);
    blockers := siteBlockers + domainBlockers + databaseBlockers + unknownSites + misplaced;
    SiteLists(t, siteIds, domains, databases);
    ReferencesMatch(env, t, siteIds, byId);
  }

  lemma {:induction false} SiteLists(t: Tables, siteIds: set<string>, domains: map<string, seq<Domain>>, databases: map<string, seq<Database>>)
    requires siteIds == Elements(Map(SitesOf(t.sites), SiteId))
    requires Grouped(domains, DomainsOf(t.domains), OnSite, siteIds) && Grouped(databases, DatabasesOf(t.databases), ForSite, siteIds)
    ensures ListsFit(t, SitesOf(t.sites), domains, databases)
  {
    var sites := SitesOf(t.sites);
    forall site <- sites ensures site.id in siteIds {
      var i :| 0 <= i < |sites| && sites[i] == site;
      assert Map(sites, SiteId)[i] == site.id;
    }
  }

  /** The two cross-reference loops judge what ReferencesPass states. */
  lemma {:induction false} ReferencesMatch(env: Env, t: Tables, siteIds: set<string>, byId: map<string, Domain>)
    requires IndexesIds(byId, DomainsOf(t.domains)) && siteIds == Elements(Map(SitesOf(t.sites), SiteId))
    ensures DomainsReadable(env, t.domains) ==>
              (All(DomainsOf(t.domains), SiteKnown(siteIds)) && All(DatabasesOf(t.databases), WithinIn(siteIds, byId))
               <==> ReferencesPass(t))
  {
    if DomainsReadable(env, t.domains) {
      forall d <- DatabasesOf(t.databases) ensures WithinIn(siteIds, byId)(d) <==> OwnedWithin(t, d) {
        DomainLookup(env, t, byId, siteIds, d);
      }
    }
  }

  /** Where the site loop stands after the first n sites. */
  ghost predicate Progress(sites: seq<Site>, n: nat, claims: Site -> seq<Claim>, passes: Site -> bool, rowsOf: Site -> seq<MapRow>,
                           distinct: bool, keys: map<string, string>, rows: seq<MapRow>, clean: bool)
    requires n <= |sites|
  {
    && keys == After(map[], Concat(sites[..n], claims))
    && (clean <==> All(sites[..n], passes) && Clashes(map[], Concat(sites[..n], claims)) == 0)
    && (clean && distinct ==> rows == Concat(sites[..n], rowsOf))
  }

  /** One more site: the registry, the verdict and the rows all grow by that site's part. */
  lemma {:induction false} Advance(sites: seq<Site>, i: nat, claims: Site -> seq<Claim>, passes: Site -> bool, rowsOf: Site -> seq<MapRow>,
                distinct: bool, keys: map<string, string>, rows: seq<MapRow>, clean: bool, more: seq<MapRow>, found: seq<Blocker>)
    requires i < |sites| && Progress(sites, i, claims, passes, rowsOf, distinct, keys, rows, clean)
    requires found == [] <==> passes(sites[i]) && Clashes(keys, claims(sites[i])) == 0
    requires found == [] && distinct ==> more == rowsOf(sites[i])
    ensures Progress(sites, i + 1, claims, passes, rowsOf, distinct, After(keys, claims(sites[i])), rows + more, clean && found == [])
  {
    NextPrefix(sites, i);
    ConcatOne(sites[..i], sites[i], claims);
    ConcatOne(sites[..i], sites[i], rowsOf);
    AllGrows(sites[..i], sites[i], passes);
    RunsCompose(map[], Concat(sites[..i], claims), claims(sites[i]));
  }

  lemma {:induction false} SortedIdsDistinct(env: Env, t: Tables, site: Site)
    requires Distinct(Map(DomainsOf(t.domains), DomainId))
    ensures Distinct(Map(DomainsFor(env, t, site), DomainId))
  {
    var own := Filter(DomainsOf(t.domains), OnSite(site.id));
    FilterKeepsDistinct(DomainsOf(t.domains), OnSite(site.id), DomainId);
    MapPermuted(own, DomainsFor(env, t, site), DomainId);
    PermutationDistinct(Map(own, DomainId), Map(DomainsFor(env, t, site), DomainId));
  }

  method PlanNext(env: Env, t: Tables, site: Site, domains: seq<Domain>, databases: seq<Database>, owners: map<string, string>)
    returns (after: map<string, string>, rows: seq<MapRow>, blockers: seq<Blocker>)
    requires domains == Filter(DomainsOf(t.domains), OnSite(site.id)) && databases == DatabasesFor(t, site)
    ensures after == After(owners, ClaimsIn(env, t)(site))
    ensures blockers == [] <==> SitePassesIn(env, t)(site) && Clashes(owners, ClaimsIn(env, t)(site)) == 0
    ensures blockers == [] && Distinct(Map(DomainsOf(t.domains), DomainId)) ==> rows == RowsIn(env, t)(site)
  {
    if Distinct(Map(DomainsOf(t.domains), DomainId)) {
      SortedIdsDistinct(env, t, site);
    }
    after, rows, blockers := PlanSite(env, site, SortedDomains(env, domains), databases, owners);
  }

  /** The loop over the sites, in identifier order. */
  method PlanSites(env: Env, t: Tables, ordered: seq<Site>, domains: map<string, seq<Domain>>, databases: map<string, seq<Database>>)
    returns (rows: seq<MapRow>, blockers: seq<Blocker>)
    requires ListsFit(t, ordered, domains, databases)
    ensures blockers == [] <==> All(ordered, SitePassesIn(env, t)) && Clashes(map[], Concat(ordered, ClaimsIn(env, t))) == 0
    ensures blockers == [] && Distinct(Map(DomainsOf(t.domains), DomainId)) ==> rows == Concat(ordered, RowsIn(env, t))
  {
    rows, blockers := [], [];
    var runtimeKeys: map<string, string> := map[];
    ghost var claims, passes, rowsOf := ClaimsIn(env, t), SitePassesIn(env, t), RowsIn(env, t);
    ghost var distinct := Distinct(Map(DomainsOf(t.domains), DomainId));
    for i := 0 to |ordered|
      invariant Progress(ordered, i, claims, passes, rowsOf, distinct, runtimeKeys, rows, blockers == [])
    {
      var keys, siteRows, found :=
        PlanNext(env, t, ordered[i], ListAt(domains, ordered[i].id), ListAt(databases, ordered[i].id), runtimeKeys);
      Advance(ordered, i, claims, passes, rowsOf, distinct, runtimeKeys, rows, blockers == [], siteRows, found);
      runtimeKeys, rows, blockers := keys, rows + siteRows, blockers + found;
    }
    WholePrefix(ordered);
  }

  /** buildLegacyMigrationMap: it reports no blocker exactly for a mappable installation. */
  method BuildLegacyMap(env: Env, t: Tables, changedMeanwhile: bool) returns (rows: seq<MapRow>, blockers: seq<Blocker>)
    ensures blockers == [] <==> LegacyOk(env, t) && !changedMeanwhile
    ensures blockers == [] ==> rows == MapRows(env, t)
  {
    var sites, domains, databases, plans;
    sites, domains, databases, blockers := ReadTables(env, t);
    var ordered := OrderedSites(env, t);
    ListsFitOrdered(env, t, domains, databases);
    rows, plans := PlanSites(env, t, ordered, domains, databases);
    NoClashesAtAll(RuntimeClaimsOf(env, t, ordered));
    blockers := blockers + plans + if changedMeanwhile then [ChangedDuringMapping] else [];
    rows := SortMapRows(env, rows);
  }

  lemma {:induction false} ListsFitOrdered(env: Env, t: Tables, domains: map<string, seq<Domain>>, databases: map<string, seq<Database>>)
    requires ListsFit(t, SitesOf(t.sites), domains, databases)
    ensures ListsFit(t, OrderedSites(env, t), domains, databases)
  {
    SamePermutation(SitesOf(t.sites), OrderedSites(env, t));
  }

  lemma {:induction false} NoClashesAtAll(claims: seq<Claim>)
    ensures Clashes(map[], claims) == 0 <==> Compatible(claims)
  {
    NoClashMeansCompatible(map[], [], claims);
    assert [] + claims == claims;
  }
}
