/** A map without blockers migrates to a database that passes every final check
    (migrations/release/mapper.ts:519-889 against migrations/release/invariants.ts:168-253). */
module MigrationTheorem {
  import opened Common
  import opened Claims
  import opened RuntimeKeys
  import opened LegacySource
  import opened PrimaryDatabase
  import opened SitePlan
  import opened Positions
  import opened LegacyMap
  import opened MapCoverage
  import opened FinalInvariants
  import opened DomainCentricMigration
  import LegacyPaths

  // ------------------------------------------------------------- list correspondences

  lemma {:induction false} ConcatMap<S, T, U>(s: seq<S>, f: S -> T, g: T -> seq<U>, h: S -> seq<U>)
    requires forall x <- s :: g(f(x)) == h(x)
    ensures Concat(Map(s, f), g) == Concat(s, h)
  {
    if s != [] {
      var most := s[..|s| - 1];
      assert Map(s, f)[..|s| - 1] == Map(most, f);
      ConcatMap(most, f, g, h);
    }
  }

  // ------------------------------------------------------------ the migrated tables

  ghost function Migrated(env: Env, t: Tables): Final
    requires LegacyOk(env, t)
  {
    Copy(t, MapRows(env, t))
  }

  function FirstOr<T>(s: seq<T>, otherwise: T): T { if s == [] then otherwise else s[0] }

  function Uncopied(d: Domain): FinalDomain {
    FinalDomain(d.id, d.siteId, None, d.isPrimary, d.position, None, None, None, None, None, None, NoNumber)
  }

  ghost function MirrorOf(env: Env, t: Tables): Domain -> FinalDomain
    requires LegacyOk(env, t)
  {
    (d: Domain) => FirstOr(DomainCopies(t, MapRows(env, t))(d), Uncopied(d))
  }

  ghost function DatabaseMirrorOf(env: Env, t: Tables): Database -> FinalDatabase
    requires LegacyOk(env, t)
  {
    (d: Database) => FirstOr(DatabaseCopies(MapRows(env, t))(d), FinalDatabase(d.id, d.siteId, None, None, d.dbType))
  }

  lemma {:induction false} ConcatIsMap<S, T>(s: seq<S>, f: S -> seq<T>, g: S -> T)
    requires OneEach(s, f) && forall x <- s :: f(x) == [g(x)]
    ensures Concat(s, f) == Map(s, g)
  {
    ConcatSingles(s, f);
    forall i | 0 <= i < |s| ensures Concat(s, f)[i] == g(s[i]) {
      assert [Concat(s, f)[i]] == f(s[i]) == [g(s[i])];
    }
  }

  lemma {:induction false} DomainsMirrored(env: Env, t: Tables)
    requires LegacyOk(env, t)
    ensures Migrated(env, t).domains == Map(DomainsOf(t.domains), MirrorOf(env, t))
  {
    AllDomainsCopied(env, t);
    ConcatIsMap(DomainsOf(t.domains), DomainCopies(t, MapRows(env, t)), MirrorOf(env, t));
  }

  lemma {:induction false} DatabasesMirrored(env: Env, t: Tables)
    requires LegacyOk(env, t)
    ensures Migrated(env, t).databases == Map(DatabasesOf(t.databases), DatabaseMirrorOf(env, t))
  {
    AllDatabasesCopied(env, t);
    ConcatIsMap(DatabasesOf(t.databases), DatabaseCopies(MapRows(env, t)), DatabaseMirrorOf(env, t));
  }

  /** What the copy leaves as it was. */
  predicate KeepsRouting(d: Domain, c: FinalDomain) {
    c.id == d.id && c.siteId == d.siteId && c.domain == Some(d.domain) && c.aliases == Some(d.aliases)
    && c.isPrimary == d.isPrimary && c.position == d.position
  }

  /** The copy of a domain keeps its identity and routing and takes the application from its map row. */
  lemma {:induction false} MirrorFacts(env: Env, t: Tables, d: Domain) returns (site: Site)
    requires LegacyOk(env, t) && d in DomainsOf(t.domains)
    ensures CopiedAs(env, t, site, d, MirrorOf(env, t)(d))
    ensures KeepsRouting(d, MirrorOf(env, t)(d))
  {
    var copy;
    site, copy := DomainIsCopied(env, t, d);
    assert MirrorOf(env, t)(d) == copy;
  }

  // ------------------------------------------------------------ primaries, positions

  lemma {:induction false} PrimaryFacts(env: Env, t: Tables, site: Site) returns (primary: Domain)
    requires SitePasses(env, t, site)
    ensures primary == PrimaryOf(DomainsFor(env, t, site)) && primary in DomainsFor(env, t, site) && primary.isPrimary
    ensures primary in DomainsOf(t.domains) && primary.siteId == site.id
  {
    var sorted := DomainsFor(env, t, site);
    primary := PrimaryOf(sorted);
    FilterMembers(sorted, Primary);
    assert primary in Filter(sorted, Primary);
    OwnDomain(env, t, site, primary);
  }

  lemma {:induction false} EverySiteKeepsADomain(env: Env, t: Tables)
    requires LegacyOk(env, t)
    ensures EverySiteHasDomain(Migrated(env, t))
  {
    var f := Migrated(env, t);
    DomainsMirrored(env, t);
    MapMembers(SitesOf(t.sites), KeptSite);
    MapMembers(DomainsOf(t.domains), MirrorOf(env, t));
    forall s <- f.sites ensures exists d <- f.domains :: d.siteId == s.id {
      var site :| site in SitesOf(t.sites) && s == KeptSite(site);
      MappableSite(env, t, site);
      var primary := PrimaryFacts(env, t, site);
      var owner := MirrorFacts(env, t, primary);
      assert MirrorOf(env, t)(primary) in f.domains;
    }
  }

  lemma {:induction false} RoutingKept(env: Env, t: Tables)
    requires LegacyOk(env, t)
    ensures forall d <- DomainsOf(t.domains) :: KeepsRouting(d, MirrorOf(env, t)(d))
  {
    forall d <- DomainsOf(t.domains) ensures KeepsRouting(d, MirrorOf(env, t)(d)) {
      var site := MirrorFacts(env, t, d);
    }
  }

  lemma {:induction false} MirroredGroup(domains: seq<Domain>, mirror: Domain -> FinalDomain, siteId: string)
    requires forall d <- domains :: KeepsRouting(d, mirror(d))
    ensures var group, own := Filter(Map(domains, mirror), DomainOn(siteId)), Filter(domains, OnSite(siteId));
            && |Filter(group, MarkedPrimary)| == |Filter(own, Primary)|
            && Map(group, FinalPosition) == Map(own, PositionOf)
  {
    var own := Filter(domains, OnSite(siteId));
    FilterMembers(domains, OnSite(siteId));
    FilterMap(domains, mirror, DomainOn(siteId), OnSite(siteId));
    FilterMap(own, mirror, MarkedPrimary, Primary);
    MapMap(own, mirror, FinalPosition, PositionOf);
  }

  /** The mapper's verdict on the sorted domains is the checker's verdict on the group. */
  lemma {:induction false} GroupVerdict(own: seq<Domain>, sorted: seq<Domain>)
    requires multiset(own) == multiset(sorted) && OnePrimary(sorted)
    requires Enumerates(Map(sorted, PositionOf))
    ensures |Filter(own, Primary)| == 1 && AggregatesContiguous(Map(own, PositionOf))
  {
    FilterPermuted(own, sorted, Primary);
    SamePermutation(Filter(own, Primary), Filter(sorted, Primary));
    MapPermuted(own, sorted, PositionOf);
    SamePermutation(own, sorted);
    assert sorted != [];
    AggregatesMeanEnumeration(Map(own, PositionOf), Map(sorted, PositionOf));
  }

  lemma {:induction false} PositionOrderIsWeak(less: (string, string) -> bool)
    requires StrictWeakOrder(less)
    ensures StrictWeakOrder(ByPosition(less))
  {
    var before := ByPosition(less);
    forall x, y | before(x, y) ensures !before(y, x) {
      assert less(x.id, y.id) ==> !less(y.id, x.id);
    }
    forall x, y, z | !before(y, x) && !before(z, y) ensures !before(z, x) {
      assert !less(y.id, x.id) && !less(z.id, y.id) ==> !less(z.id, x.id);
    }
  }

  /** The mapper asks for the checker's aggregates and one thing more: that the primary comes first. */
  lemma {:induction false} MapperAsksOneMore(env: Env, own: seq<Domain>)
    requires StrictWeakOrder(env.less) && OnePrimary(SortedDomains(env, own))
    ensures PositionsPass(SortedDomains(env, own)) <==>
              PrimaryOf(SortedDomains(env, own)).position == 0 && AggregatesContiguous(Map(own, PositionOf))
  {
    var sorted := SortedDomains(env, own);
    PositionOrderIsWeak(env.less);
    SortSorts(own, ByPosition(env.less));
    SamePermutation(own, sorted);
    assert sorted != [];
    MapPermuted(own, sorted, PositionOf);
    forall i, j | 0 <= i < j < |sorted| ensures sorted[i].position <= sorted[j].position {
      assert !ByPosition(env.less)(sorted[j], sorted[i]);
    }
    AggregatesMeanEnumeration(Map(own, PositionOf), Map(sorted, PositionOf));
  }

  lemma {:induction false} GroupOfSite(env: Env, t: Tables, site: Site)
    requires LegacyOk(env, t) && SitePasses(env, t, site)
    ensures GroupContiguous(Filter(Migrated(env, t).domains, DomainOn(site.id)))
  {
    DomainsMirrored(env, t);
    RoutingKept(env, t);
    MirroredGroup(DomainsOf(t.domains), MirrorOf(env, t), site.id);
    GroupVerdict(Filter(DomainsOf(t.domains), OnSite(site.id)), DomainsFor(env, t, site));
  }

  lemma {:induction false} PositionsHold(env: Env, t: Tables)
    requires LegacyOk(env, t)
    ensures GroupsContiguous(Migrated(env, t))
  {
    var f := Migrated(env, t);
    DomainsMirrored(env, t);
    MapMembers(DomainsOf(t.domains), MirrorOf(env, t));
    forall c <- f.domains ensures GroupContiguous(Filter(f.domains, DomainOn(c.siteId))) {
      var d :| d in DomainsOf(t.domains) && c == MirrorOf(env, t)(d);
      var site := MirrorFacts(env, t, d);
      GroupOfSite(env, t, site);
    }
  }

  // -------------------------------------------------------------------- host names

  /** The checker shares the host name functions with the mapper; its socket settings are its own. */
  ghost predicate SameNames(env: Env, check: Env) {
    env.hostname == check.hostname && env.aliasItems == check.aliasItems
  }

  lemma {:induction false} AliasesAgree(env: Env, check: Env, items: seq<Text>)
    requires SameNames(env, check)
    ensures AliasNames(env, items) == AliasNames(check, items)
  {
    if items != [] {
      AliasesAgree(env, check, items[..|items| - 1]);
    }
  }

  lemma {:induction false} NamesAgree(env: Env, check: Env, id: string, domain: string, aliases: string)
    requires SameNames(env, check)
    ensures NamesUsable(env, domain, aliases) == NamesUsable(check, domain, aliases)
    ensures NameClaims(env, id, domain, aliases) == NameClaims(check, id, domain, aliases)
  {
    if env.aliasItems(aliases).Some? {
      AliasesAgree(env, check, env.aliasItems(aliases).value);
    }
  }

  lemma {:induction false} DomainReadable(env: Env, t: Tables, d: Domain)
    requires LegacyOk(env, t) && d in DomainsOf(t.domains)
    ensures DomainFits(env, d)
  {
    assert DomainFitsIn(env)(d);
  }

  lemma {:induction false} NamesOfDomain(env: Env, check: Env, d: Domain, c: FinalDomain)
    requires SameNames(env, check) && DomainFits(env, d) && KeepsRouting(d, c)
    ensures FinalNameClaims(check)(c) == HostClaims(env)(d) && FinalNamesUsable(check, c)
  {
    NamesAgree(env, check, d.id, d.domain, d.aliases);
  }

  lemma {:induction false} HostnamesHold(env: Env, check: Env, t: Tables)
    requires LegacyOk(env, t) && SameNames(env, check)
    ensures HostnamesDisjoint(check, Migrated(env, t))
  {
    var domains, mirror := DomainsOf(t.domains), MirrorOf(env, t);
    DomainsMirrored(env, t);
    RoutingKept(env, t);
    forall d <- domains
      ensures FinalNameClaims(check)(mirror(d)) == HostClaims(env)(d) && FinalNamesUsable(check, mirror(d))
    {
      DomainReadable(env, t, d);
      NamesOfDomain(env, check, d, mirror(d));
    }
    ConcatMap(domains, mirror, FinalNameClaims(check), HostClaims(env));
    AllMapped(domains, mirror, FinalNamesUsableIn(check));
  }

  lemma {:induction false} AllMapped<S, T>(s: seq<S>, f: S -> T, p: T -> bool)
    requires forall x <- s :: p(f(x))
    ensures All(Map(s, f), p)
  {
    MapMembers(s, f);
  }

  // ------------------------------------------------------------------- domain rows

  /** The checker's socket rule is no stricter than the mapper's. */
  ghost predicate LooserSockets(env: Env, check: Env) {
    DirectoryBytes(check.socketDirectory) <= DirectoryBytes(env.socketDirectory) && env.socketMaxBytes <= check.socketMaxBytes
  }

  lemma {:induction false} MappedPathIsClean(site: Site, raw: Text)
    requires MappedPath(site, raw).Some?
    ensures PathClean(site.rootPath, MappedPath(site, raw).value)
  {
    LegacyPaths.NormalizeIsIdempotent(raw.value);
  }

  lemma {:induction false} KeyStillFits(env: Env, check: Env, key: string, phpVersion: Text, staged: Text)
    requires KeyFits(env, key, phpVersion) && LooserSockets(env, check) && (staged == phpVersion || staged == None)
    ensures KeyFits(check, key, staged)
  {
    if staged.Some? {
      LooserSocketCheck(key, staged.value, env.socketDirectory, env.socketMaxBytes, check.socketDirectory, check.socketMaxBytes);
    }
  }

  lemma {:induction false} RowIsSound(env: Env, check: Env, site: Site, primaryId: string, d: Domain, workers: nat)
    requires SiteFits(env, site) && DomainFits(env, d) && DomainMappable(env, site, primaryId, d) && LooserSockets(env, check)
    ensures RowSound(check, Some(site.rootPath), CopiedDomain(d, DomainRow(env, site, primaryId, d, workers)))
  {
    MappedPathIsClean(site, RawPath(site, d));
    var enabled := PhpEnabled(env, site, primaryId, d.id);
    KeyStillFits(env, check, KeyFor(env, site, primaryId, d.id), site.phpVersion, if enabled then site.phpVersion else None);
  }

  lemma {:induction false} RootOfSite(sites: seq<Site>, site: Site)
    requires site in sites && Distinct(Map(sites, SiteId))
    ensures RootOf(Map(sites, KeptSite), site.id) == Some(Some(site.rootPath))
  {
    assert Map(sites, KeptSite)[1..] == Map(sites[1..], KeptSite);
    assert Map(sites, SiteId)[1..] == Map(sites[1..], SiteId);
    if sites[0].id == site.id {
      SameSite(sites, sites[0], site);
    } else {
      assert site in sites[1..];
      RootOfSite(sites[1..], site);
    }
  }

  /** Everything known about the copy of one domain. */
  lemma {:induction false} DomainFacts(env: Env, check: Env, t: Tables, d: Domain) returns (site: Site, primaryId: string, workers: nat)
    requires LegacyOk(env, t) && d in DomainsOf(t.domains) && LooserSockets(env, check)
    ensures OwnerIs(t, site, d.siteId) && SitePasses(env, t, site) && d in DomainsFor(env, t, site)
    ensures primaryId == PrimaryOf(DomainsFor(env, t, site)).id && SiteFits(env, site)
    ensures DomainMappable(env, site, primaryId, d)
    ensures MirrorOf(env, t)(d) == CopiedDomain(d, DomainRow(env, site, primaryId, d, workers))
  {
    site := MirrorFacts(env, t, d);
    var sorted := DomainsFor(env, t, site);
    primaryId := PrimaryOf(sorted).id;
    workers := ShareOf(env, primaryId, PhpIds(env, site, primaryId, sorted), d.id);
    assert DomainMappableIn(env, site, primaryId)(d);
    assert SiteFitsIn(env)(site);
  }

  lemma {:induction false} DomainIsSound(env: Env, check: Env, t: Tables, d: Domain)
    requires LegacyOk(env, t) && d in DomainsOf(t.domains) && LooserSockets(env, check)
    ensures RootOf(Migrated(env, t).sites, d.siteId).Some?
    ensures RowSound(check, RootOf(Migrated(env, t).sites, d.siteId).value, MirrorOf(env, t)(d))
  {
    var site, primaryId, workers := DomainFacts(env, check, t, d);
    DomainReadable(env, t, d);
    RowIsSound(env, check, site, primaryId, d, workers);
    MappableIds(env, t);
    RootOfSite(SitesOf(t.sites), site);
  }

  // ------------------------------------------------------------------ runtime keys

  lemma {:induction false} SiteClaimStaged(env: Env, t: Tables, site: Site, claim: Claim)
    requires site in SitesOf(t.sites) && claim in ClaimsIn(env, t)(site)
    ensures claim in RuntimeClaimsOf(env, t, OrderedSites(env, t))
  {
    SamePermutation(SitesOf(t.sites), OrderedSites(env, t));
    ConcatMembers(OrderedSites(env, t), ClaimsIn(env, t));
  }

  lemma {:induction false} DomainClaims(env: Env, t: Tables, site: Site, d: Domain)
    requires SitePasses(env, t, site) && d in DomainsFor(env, t, site)
    ensures Claim(KeyFor(env, site, PrimaryOf(DomainsFor(env, t, site)).id, d.id), d.id, false) in ClaimsIn(env, t)(site)
  {
    var sorted := DomainsFor(env, t, site);
    var claimFor := ClaimFor(env, site, PrimaryOf(sorted).id);
    MapMembers(sorted, claimFor);
    assert claimFor(d) in Map(sorted, claimFor);
  }

  lemma {:induction false} ClaimIsStaged(env: Env, check: Env, t: Tables, d: Domain)
    requires LegacyOk(env, t) && d in DomainsOf(t.domains) && LooserSockets(env, check)
    ensures var c := MirrorOf(env, t)(d);
            c.runtimeKey.Some? && Claim(c.runtimeKey.value, c.id, false) in RuntimeClaimsOf(env, t, OrderedSites(env, t))
  {
    var site, primaryId, workers := DomainFacts(env, check, t, d);
    DomainClaims(env, t, site, d);
    SiteClaimStaged(env, t, site, Claim(KeyFor(env, site, primaryId, d.id), d.id, false));
  }

  lemma {:induction false} SubclaimsCompatible(claims: seq<Claim>, sub: seq<Claim>)
    requires Compatible(claims) && forall c <- sub :: !c.exclusive && c in claims
    ensures Compatible(sub)
  {
    CompatibleMeansFunctional(claims);
    CompatibleMeansFunctional(sub);
  }

  lemma {:induction false} KeyClaimStaged(env: Env, check: Env, t: Tables, d: Domain, c: Claim)
    requires LegacyOk(env, t) && d in DomainsOf(t.domains) && LooserSockets(env, check)
    requires c in KeyClaims(Migrated(env, t))(MirrorOf(env, t)(d))
    ensures !c.exclusive && c in RuntimeClaimsOf(env, t, OrderedSites(env, t))
  {
    ClaimIsStaged(env, check, t, d);
  }

  ghost function StagedIn(env: Env, t: Tables): Claim -> bool {
    (c: Claim) => !c.exclusive && c in RuntimeClaimsOf(env, t, OrderedSites(env, t))
  }

  lemma {:induction false} AllPieces<S, T, U>(s: seq<S>, f: S -> T, g: T -> seq<U>, p: U -> bool)
    requires forall x <- s :: All(g(f(x)), p)
    ensures All(Concat(Map(s, f), g), p)
  {
    MapMembers(s, f);
    forall u <- Concat(Map(s, f), g) ensures p(u) {
      var y := PieceOf(Map(s, f), g, u);
      var x :| x in s && y == f(x);
    }
  }

  lemma {:induction false} KeysHold(env: Env, check: Env, t: Tables)
    requires LegacyOk(env, t) && LooserSockets(env, check)
    ensures Compatible(Concat(Migrated(env, t).domains, KeyClaims(Migrated(env, t))))
  {
    var claims := KeyClaims(Migrated(env, t));
    DomainsMirrored(env, t);
    forall d <- DomainsOf(t.domains) ensures All(claims(MirrorOf(env, t)(d)), StagedIn(env, t)) {
      forall c <- claims(MirrorOf(env, t)(d)) ensures StagedIn(env, t)(c) {
        KeyClaimStaged(env, check, t, d, c);
      }
    }
    AllPieces(DomainsOf(t.domains), MirrorOf(env, t), claims, StagedIn(env, t));
    StagedCompatible(env, t, Concat(Migrated(env, t).domains, claims));
  }

  lemma {:induction false} StagedCompatible(env: Env, t: Tables, keys: seq<Claim>)
    requires LegacyOk(env, t) && All(keys, StagedIn(env, t))
    ensures Compatible(keys)
  {
    forall c <- keys ensures !c.exclusive && c in RuntimeClaimsOf(env, t, OrderedSites(env, t)) {
      assert StagedIn(env, t)(c);
    }
    SubclaimsCompatible(RuntimeClaimsOf(env, t, OrderedSites(env, t)), keys);
  }

  lemma {:induction false} MirrorSound(env: Env, check: Env, t: Tables, d: Domain)
    requires LegacyOk(env, t) && d in DomainsOf(t.domains) && LooserSockets(env, check)
    ensures DomainSoundIn(check, Migrated(env, t))(MirrorOf(env, t)(d))
  {
    DomainIsSound(env, check, t, d);
    var owner := MirrorFacts(env, t, d);
  }

  lemma {:induction false} DomainsHold(env: Env, check: Env, t: Tables)
    requires LegacyOk(env, t) && LooserSockets(env, check)
    ensures DomainsSound(check, Migrated(env, t))
  {
    var sound := DomainSoundIn(check, Migrated(env, t));
    DomainsMirrored(env, t);
    forall d <- DomainsOf(t.domains) ensures sound(MirrorOf(env, t)(d)) {
      MirrorSound(env, check, t, d);
    }
    AllMapped(DomainsOf(t.domains), MirrorOf(env, t), sound);
    KeysHold(env, check, t);
  }

  // -------------------------------------------------------------------- databases

  lemma {:induction false} DatabaseFacts(env: Env, t: Tables, d: Database) returns (site: Site, primary: Domain)
    requires LegacyOk(env, t) && d in DatabasesOf(t.databases)
    ensures d.siteId == Some(site.id) && OwnerIs(t, site, site.id) && SitePasses(env, t, site) && d in DatabasesFor(t, site)
    ensures primary == PrimaryOf(DomainsFor(env, t, site)) && primary in DomainsOf(t.domains) && primary.siteId == site.id
    ensures var choice := ChoiceFor(env, site, primary, DatabasesFor(t, site));
            DatabaseMirrorOf(env, t)(d)
            == FinalDatabase(d.id, d.siteId, Some(primary.id),
                             Some(if choice.Chosen? && choice.database.id == d.id then "APP_PRIMARY" else "AUXILIARY"), d.dbType)
  {
    var copy;
    site, copy := DatabaseIsCopied(env, t, d);
    primary := PrimaryFacts(env, t, site);
    assert DatabaseMirrorOf(env, t)(d) == copy;
  }

  lemma {:induction false} DatabaseOwned(env: Env, t: Tables, d: Database)
    requires LegacyOk(env, t) && d in DatabasesOf(t.databases)
    ensures OwnedInSite(Migrated(env, t), DatabaseMirrorOf(env, t)(d)) && PurposeKnown(DatabaseMirrorOf(env, t)(d))
  {
    var site, primary := DatabaseFacts(env, t, d);
    DomainsMirrored(env, t);
    RoutingKept(env, t);
    MapMembers(DomainsOf(t.domains), MirrorOf(env, t));
    assert MirrorOf(env, t)(primary) in Migrated(env, t).domains;
  }

  /** Two databases marked primary for one domain are the same database. */
  lemma {:induction false} PrimaryIsUnique(env: Env, t: Tables, domainId: Text, a: Database, b: Database)
    requires LegacyOk(env, t) && a in DatabasesOf(t.databases) && b in DatabasesOf(t.databases)
    requires PrimaryFor(domainId)(DatabaseMirrorOf(env, t)(a)) && PrimaryFor(domainId)(DatabaseMirrorOf(env, t)(b))
    ensures a.id == b.id
  {
    var siteA, primaryA := DatabaseFacts(env, t, a);
    var siteB, primaryB := DatabaseFacts(env, t, b);
    MappableIds(env, t);
    SameIdSameDomain(DomainsOf(t.domains), primaryA, primaryB);
    SameSite(SitesOf(t.sites), siteA, siteB);
  }

  lemma {:induction false} AtMostOne(s: seq<Database>, keep: Database -> bool)
    requires Distinct(Map(s, DatabaseId))
    requires forall a, b | a in s && b in s && keep(a) && keep(b) :: a.id == b.id
    ensures |Filter(s, keep)| <= 1
  {
    var kept := Filter(s, keep);
    FilterMembers(s, keep);
    FilterKeepsDistinct(s, keep, DatabaseId);
    var ids := Map(kept, DatabaseId);
    DistinctSize(ids);
    if ids != [] {
      MapMembers(kept, DatabaseId);
      assert Elements(ids) == {ids[0]};
    }
  }

  ghost function MirroredKeep(env: Env, t: Tables, keep: FinalDatabase -> bool): Database -> bool
    requires LegacyOk(env, t)
  {
    (d: Database) => keep(DatabaseMirrorOf(env, t)(d))
  }

  lemma {:induction false} OnePrimaryPerDomain(env: Env, t: Tables, domainId: Text)
    requires LegacyOk(env, t)
    ensures |Filter(Migrated(env, t).databases, PrimaryFor(domainId))| <= 1
  {
    var databases, mirror, keep := DatabasesOf(t.databases), DatabaseMirrorOf(env, t), MirroredKeep(env, t, PrimaryFor(domainId));
    DatabasesMirrored(env, t);
    FilterMap(databases, mirror, PrimaryFor(domainId), keep);
    MappableIds(env, t);
    forall a, b | a in databases && b in databases && keep(a) && keep(b) ensures a.id == b.id {
      PrimaryIsUnique(env, t, domainId, a, b);
    }
    AtMostOne(databases, keep);
  }

  lemma {:induction false} NarrowerFilter<T>(s: seq<T>, narrow: T -> bool, wide: T -> bool)
    requires forall x <- s :: narrow(x) ==> wide(x)
    ensures |Filter(s, narrow)| <= |Filter(s, wide)|
  {
    if s != [] {
      NarrowerFilter(s[1..], narrow, wide);
    }
  }

  /** Only a primary domain is staged with a MODX preset, and then with the site's PHP version. */
  lemma {:induction false} ModxIsPrimary(env: Env, site: Site, primaryId: string, d: Domain, workers: nat)
    requires var preset := DomainRow(env, site, primaryId, d, workers).payload.preset;
             preset.Some? && IsModxPreset(preset.value)
    ensures d.id == primaryId && IsModxPreset(site.preset)
    ensures DomainRow(env, site, primaryId, d, workers).payload.phpVersion == site.phpVersion
  {
  }

  lemma {:induction false} OneModxPrimary(env: Env, t: Tables, site: Site)
    requires LegacyOk(env, t) && OwnerIs(t, site, site.id) && SitePasses(env, t, site)
    requires ChoiceFor(env, site, PrimaryOf(DomainsFor(env, t, site)), DatabasesFor(t, site)).Chosen?
    ensures |Filter(Migrated(env, t).databases, ModxPrimary(PrimaryOf(DomainsFor(env, t, site)).id))| == 1
  {
    var f, id := Migrated(env, t), PrimaryOf(DomainsFor(env, t, site)).id;
    OnePrimaryPerDomain(env, t, Some(id));
    NarrowerFilter(f.databases, ModxPrimary(id), PrimaryFor(Some(id)));
    ChosenIsCopied(env, t, site);
    FilterMembers(f.databases, ModxPrimary(id));
  }

  /** The managed domain of a MODX site gets its one MySQL-compatible primary database. */
  lemma {:induction false} ModxHolds(env: Env, check: Env, t: Tables, d: Domain)
    requires LegacyOk(env, t) && d in DomainsOf(t.domains) && LooserSockets(env, check)
    ensures ModxComplete(Migrated(env, t), MirrorOf(env, t)(d))
  {
    var site, primaryId, workers := DomainFacts(env, check, t, d);
    var preset := MirrorOf(env, t)(d).preset;
    if preset.Some? && IsModxPreset(preset.value) {
      ModxIsPrimary(env, site, primaryId, d, workers);
      ModxSite(env, t, site, d);
      OneModxPrimary(env, t, site);
      PhpVersionIsNotBlank(site.phpVersion.value);
    }
  }

  lemma {:induction false} ModxSite(env: Env, t: Tables, site: Site, d: Domain)
    requires SitePasses(env, t, site) && IsModxPreset(site.preset) && d in DomainsFor(env, t, site)
    ensures site.phpVersion.Some? && IsPhpVersion(site.phpVersion.value)
    ensures ChoiceFor(env, site, PrimaryOf(DomainsFor(env, t, site)), DatabasesFor(t, site)).Chosen?
  {
    assert DomainMappableIn(env, site, PrimaryOf(DomainsFor(env, t, site)).id)(d);
  }

  lemma {:induction false} ChosenIsCopied(env: Env, t: Tables, site: Site)
    requires LegacyOk(env, t) && OwnerIs(t, site, site.id) && SitePasses(env, t, site)
    requires ChoiceFor(env, site, PrimaryOf(DomainsFor(env, t, site)), DatabasesFor(t, site)).Chosen?
    ensures exists db <- Migrated(env, t).databases :: ModxPrimary(PrimaryOf(DomainsFor(env, t, site)).id)(db)
  {
    var primary := PrimaryOf(DomainsFor(env, t, site));
    var own := DatabasesFor(t, site);
    ChosenIsMysql(site, primary, own, EvidenceOf(env, primary.id).modxDatabaseName);
    var chosen := ChoiceFor(env, site, primary, own).database;
    OwnDatabase(t, site, chosen);
    var siteOfChosen, primaryOfChosen := DatabaseFacts(env, t, chosen);
    MappableIds(env, t);
    SameSite(SitesOf(t.sites), site, siteOfChosen);
    DatabasesMirrored(env, t);
    MapMembers(DatabasesOf(t.databases), DatabaseMirrorOf(env, t));
    assert DatabaseMirrorOf(env, t)(chosen) in Migrated(env, t).databases;
  }

  function SoundlyOwned(f: Final): FinalDatabase -> bool {
    (db: FinalDatabase) => OwnedInSite(f, db) && PurposeKnown(db)
  }

  function ModxCompleteIn(f: Final): FinalDomain -> bool { (c: FinalDomain) => ModxComplete(f, c) }

  lemma {:induction false} OwnershipHolds(env: Env, t: Tables)
    requires LegacyOk(env, t)
    ensures All(Migrated(env, t).databases, SoundlyOwned(Migrated(env, t)))
  {
    DatabasesMirrored(env, t);
    forall d <- DatabasesOf(t.databases) ensures SoundlyOwned(Migrated(env, t))(DatabaseMirrorOf(env, t)(d)) {
      DatabaseOwned(env, t, d);
    }
    AllMapped(DatabasesOf(t.databases), DatabaseMirrorOf(env, t), SoundlyOwned(Migrated(env, t)));
  }

  lemma {:induction false} AllModxHold(env: Env, check: Env, t: Tables)
    requires LegacyOk(env, t) && LooserSockets(env, check)
    ensures All(Migrated(env, t).domains, ModxCompleteIn(Migrated(env, t)))
  {
    DomainsMirrored(env, t);
    forall d <- DomainsOf(t.domains) ensures ModxCompleteIn(Migrated(env, t))(MirrorOf(env, t)(d)) {
      ModxHolds(env, check, t, d);
    }
    AllMapped(DomainsOf(t.domains), MirrorOf(env, t), ModxCompleteIn(Migrated(env, t)));
  }

  lemma {:induction false} DatabasesHold(env: Env, check: Env, t: Tables)
    requires LegacyOk(env, t) && LooserSockets(env, check)
    ensures DatabasesSound(Migrated(env, t))
  {
    var f := Migrated(env, t);
    OwnershipHolds(env, t);
    AllModxHold(env, check, t);
    forall db <- f.databases ensures OwnedInSite(f, db) && PurposeKnown(db) {
      assert SoundlyOwned(f)(db);
    }
    forall c <- f.domains ensures ModxComplete(f, c) {
      assert ModxCompleteIn(f)(c);
    }
    forall db <- f.databases ensures |Filter(f.databases, PrimaryFor(db.siteDomainId))| <= 1 {
      OnePrimaryPerDomain(env, t, db.siteDomainId);
    }
  }

  // ------------------------------------------------------------------ the theorem

  /** Whatever the mapper accepts, the migrated data passes every check of the independently written checker,
      provided its socket rule is no stricter. */
  lemma {:induction false} MappedMeansChecked(env: Env, check: Env, t: Tables)
    requires LegacyOk(env, t) && SameNames(env, check) && LooserSockets(env, check)
    ensures FinalOk(check, Migrated(env, t), BaselineOf(t))
  {
    CountsSurvive(env, t);
    EverySiteKeepsADomain(env, t);
    PositionsHold(env, t);
    HostnamesHold(env, check, t);
    DomainsHold(env, check, t);
    DatabasesHold(env, check, t);
  }

  /** The two programs' own defaults meet the proviso. */
  lemma {:induction false} DefaultsAreLooser(env: Env)
    requires env.socketDirectory == MAPPER_DIRECTORY && env.socketMaxBytes == SOCKET_MAX
    ensures LooserSockets(env, env.(socketDirectory := CHECKER_DIRECTORY, socketMaxBytes := SOCKET_MAX))
  {
    DefaultDirectories();
  }
}
