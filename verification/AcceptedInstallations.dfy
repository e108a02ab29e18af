/** Which legacy installations are mapped, said about single rows and pairs of rows and without the mapper's
    sorting, registries and evidence lookups (migrations/release/mapper.ts:519-889). */
module AcceptedInstallations {
  import opened Common
  import opened Claims
  import opened RuntimeKeys
  import opened LegacySource
  import opened PrimaryDatabase
  import opened SitePlan
  import opened Positions
  import opened LegacyMap
  import opened MapCoverage
  import opened FinalInvariants
  import opened DomainCentricMigration
  import opened MigrationTheorem
  import opened FinalVerdict
  import opened RecordContents
  import LegacyPaths
  import LegacyPool

  // ----------------------------------------------------------------- one site

  function Own(t: Tables, site: Site): seq<Domain> { Filter(DomainsOf(t.domains), OnSite(site.id)) }

  predicate Stands(own: seq<Domain>, n: int) { exists d <- own :: d.position == n }

  /** One domain is primary and comes first; the others follow without a gap. */
  ghost predicate InPlace(own: seq<Domain>, primary: Domain) {
    && primary in own && primary.isPrimary && primary.position == 0
    && Once(own, (d: Domain) => d.isPrimary)
    && forall n: int :: Stands(own, n) <==> 0 <= n < |own|
  }

  /** A text the map may carry. */
  predicate Harmless(env: Env, text: string) { '\0' !in text && !env.suspicious(text) }

  predicate TextsPass(env: Env, site: Site) {
    && (site.phpPoolCustom.Some? ==>
          && LegacyPool.Utf8Bytes(site.phpPoolCustom.value) <= 16384 && Harmless(env, site.phpPoolCustom.value)
          && forall line <- LegacyPool.Lines(site.phpPoolCustom.value) :: !LegacyPool.JudgeLine(line).Refuse?)
    && (site.status == "ERROR" && site.errorMessage.Some? ==>
          |site.errorMessage.value| <= 2000 && Harmless(env, site.errorMessage.value))
  }

  predicate KeyOfDomain(env: Env, site: Site, d: Domain, key: string) { NamedBySiteOrHash(env, site, d, Some(key)) }

  function PathOf(site: Site, d: Domain): Text { if d.filesRelPath == None then site.filesRelPath else d.filesRelPath }

  /** A domain of the site that can be given its own application. */
  predicate DomainPasses(env: Env, site: Site, d: Domain) {
    && PathOf(site, d).Some? && LegacyPaths.NormalizeRelativePath(PathOf(site, d).value).Normalized?
    && site.rootPath != "" && site.rootPath[0] == '/'
    && KeyInWords(env, if d.isPrimary then site.name else DeriveSecondaryRuntimeKey(env.hashHex, d.id), site.phpVersion)
    && (d.isPrimary || site.phpVersion == None || (d.id in env.evidence && env.evidence[d.id].phpEnabled.Some?))
  }

  function WithPhp(env: Env, site: Site): Domain -> bool { (d: Domain) => HasPhp(env, site, d) }

  /** The observed worker budget has one worker for every domain with PHP. */
  predicate WorkersSuffice(env: Env, site: Site, primary: Domain, php: nat) {
    php == 0 || (primary.id in env.evidence && env.evidence[primary.id].poolMaxChildren.Whole?
                 && env.evidence[primary.id].poolMaxChildren.n >= php)
  }

  predicate DatabaseClear(env: Env, t: Tables, site: Site, primary: Domain) {
    var named := if primary.id in env.evidence then env.evidence[primary.id].modxDatabaseName else None;
    var choice := ResolvePrimaryDatabase(site, primary, OwnDatabases(t, site), named);
    && choice != Ambiguous
    && (site.preset == "MODX_REVO" || site.preset == "MODX_3" ==> site.phpVersion.Some? && choice.Chosen?)
  }

  ghost predicate SiteAccepted(env: Env, t: Tables, site: Site, primary: Domain) {
    && TextsPass(env, site) && InPlace(Own(t, site), primary)
    && DatabaseClear(env, t, site, primary)
    && (forall d <- Own(t, site) :: DomainPasses(env, site, d))
    && WorkersSuffice(env, site, primary, |Filter(Own(t, site), WithPhp(env, site))|)
  }

  lemma {:induction false} TextsInWords(env: Env, site: Site)
    ensures TextsPass(env, site) <==> PoolPasses(env, site) && MessagePasses(env, site)
  {
  }

  lemma {:induction false} PlaceInWords(env: Env, own: seq<Domain>, primary: Domain)
    requires StrictWeakOrder(env.less)
    ensures InPlace(own, primary) <==>
              var sorted := SortedDomains(env, own);
              OnePrimary(sorted) && PrimaryOf(sorted) == primary && PositionsPass(sorted)
  {
    var sorted := SortedDomains(env, own);
    SamePermutation(own, sorted);
    FilterPermuted(own, sorted, Primary);
    SamePermutation(Filter(own, Primary), Filter(sorted, Primary));
    FilterOnce(own, Primary);
    SameOnce(own, Primary, (d: Domain) => d.isPrimary);
    if OnePrimary(sorted) {
      MapperAsksOneMore(env, own);
      FilterMembers(sorted, Primary);
      assert PrimaryOf(sorted) in Filter(sorted, Primary);
      if primary in own && primary.isPrimary { OnlyPrimary(sorted, primary); }
      PlacesInWords(own);
    }
  }

  lemma {:induction false} PlacesInWords(own: seq<Domain>)
    requires own != []
    ensures AggregatesContiguous(Map(own, PositionOf)) <==> forall n: int :: Stands(own, n) <==> 0 <= n < |own|
  {
    AggregatesMeanAllTaken(Map(own, PositionOf));
    MapMembers(own, PositionOf);
    forall n: int ensures n in Map(own, PositionOf) <==> Stands(own, n) {}
  }

  lemma {:induction false} DomainInWords(env: Env, site: Site, primaryId: string, d: Domain)
    requires d.isPrimary <==> d.id == primaryId
    ensures DomainPasses(env, site, d) <==> DomainMappable(env, site, primaryId, d) && PhpObserved(env, site, primaryId, d.id)
    ensures HasPhp(env, site, d) <==> PhpEnabled(env, site, primaryId, d.id)
  {
    var path := PathOf(site, d);
    if path.Some? && LegacyPaths.NormalizeRelativePath(path.value).Normalized? {
      LegacyPaths.NormalizedIsContained(site.rootPath, path.value);
    }
    KeySaysTheSame(env, KeyFor(env, site, primaryId, d.id), site.phpVersion);
  }

  /** In a site with one primary the flag and the identifier say the same. */
  ghost predicate Flagged(own: seq<Domain>, primary: Domain) { forall d <- own :: d.isPrimary <==> d.id == primary.id }

  lemma {:induction false} PlacedIsFlagged(t: Tables, site: Site, primary: Domain)
    requires IdsDistinct(t) && InPlace(Own(t, site), primary)
    ensures Flagged(Own(t, site), primary)
  {
    var own := Own(t, site);
    FilterMembers(DomainsOf(t.domains), OnSite(site.id));
    var i :| 0 <= i < |own| && own[i].isPrimary && forall j | 0 <= j < |own| && j != i :: !own[j].isPrimary;
    forall d <- own ensures d.isPrimary <==> d.id == primary.id {
      if d.id == primary.id { SameIdSameDomain(DomainsOf(t.domains), d, primary); }
    }
  }

  lemma {:induction false} PhpCount(env: Env, site: Site, own: seq<Domain>, sorted: seq<Domain>, primary: Domain)
    requires multiset(own) == multiset(sorted) && Flagged(own, primary)
    ensures |PhpIds(env, site, primary.id, sorted)| == |Filter(own, WithPhp(env, site))|
  {
    forall d <- own ensures WithPhp(env, site)(d) <==> PhpOn(env, site, primary.id)(d) { DomainInWords(env, site, primary.id, d); }
    SameSelection(own, WithPhp(env, site), PhpOn(env, site, primary.id));
    FilterPermuted(own, sorted, PhpOn(env, site, primary.id));
    SamePermutation(Filter(own, PhpOn(env, site, primary.id)), Filter(sorted, PhpOn(env, site, primary.id)));
  }

  lemma {:induction false} DomainsInWords(env: Env, site: Site, own: seq<Domain>, sorted: seq<Domain>, primary: Domain)
    requires multiset(own) == multiset(sorted) && Flagged(own, primary)
    ensures (forall d <- own :: DomainPasses(env, site, d)) <==>
              All(sorted, PhpObservedIn(env, site, primary.id)) && All(sorted, DomainMappableIn(env, site, primary.id))
  {
    SamePermutation(own, sorted);
    forall d <- own
      ensures DomainPasses(env, site, d) <==> DomainMappableIn(env, site, primary.id)(d) && PhpObservedIn(env, site, primary.id)(d)
    {
      DomainInWords(env, site, primary.id, d);
    }
  }

  lemma {:induction false} DatabasesInWords(env: Env, t: Tables, site: Site, primary: Domain)
    ensures DatabaseClear(env, t, site, primary) <==>
              var choice := ChoiceFor(env, site, primary, DatabasesFor(t, site)); choice != Ambiguous && ModxPasses(site, choice)
  {
    OwnAreListed(t, site);
  }

  /** The mapper's verdict on one site, and the domain it takes for primary. */
  lemma {:induction false} SiteInWords(env: Env, t: Tables, site: Site, primary: Domain)
    requires IdsDistinct(t) && StrictWeakOrder(env.less)
    ensures SiteAccepted(env, t, site, primary) <==>
              SitePasses(env, t, site) && PrimaryOf(DomainsFor(env, t, site)) == primary
  {
    var own, sorted := Own(t, site), DomainsFor(env, t, site);
    TextsInWords(env, site);
    PlaceInWords(env, own, primary);
    if InPlace(own, primary) {
      PlacedIsFlagged(t, site, primary);
      PhpCount(env, site, own, sorted, primary);
      DomainsInWords(env, site, own, sorted, primary);
      DatabasesInWords(env, t, site, primary);
      WorkersInWords(env, site, primary, |Filter(own, WithPhp(env, site))|);
    }
  }

  lemma {:induction false} WorkersInWords(env: Env, site: Site, primary: Domain, php: nat)
    ensures WorkersSuffice(env, site, primary, php) <==> BudgetCovers(env, primary.id, php)
  {
  }

  // ------------------------------------------------------------------ the tables

  lemma {:induction false} DistinctInWords<R, T>(rows: seq<R>, record: R -> T, id: T -> string)
    ensures Distinct(Map(Map(rows, record), id)) <==> forall i, j | 0 <= i < j < |rows| :: id(record(rows[i])) != id(record(rows[j]))
  {
    var ids := Map(Map(rows, record), id);
    forall i | 0 <= i < |rows| ensures ids[i] == id(record(rows[i])) {}
  }

  lemma {:induction false} AllInWords<R, T>(rows: seq<R>, record: R -> T, fits: T -> bool)
    ensures All(Map(rows, record), fits) <==> forall r <- rows :: fits(record(r))
  {
    MapMembers(rows, record);
  }

  /** A table without incomplete rows: no identifier twice, every record usable. */
  lemma {:induction false} TableInWords<R, T>(rows: seq<R>, complete: R -> bool, record: R -> T, id: T -> string, fits: T -> bool)
    ensures Readable(rows, complete, record, id, fits) <==>
              && (forall r <- rows :: complete(r) && fits(record(r)))
              && forall i, j | 0 <= i < j < |rows| :: id(record(rows[i])) != id(record(rows[j]))
  {
    if All(rows, complete) {
      FilterAll(rows, complete);
      DistinctInWords(rows, record, id);
      AllInWords(rows, record, fits);
    }
  }

  predicate SiteRowPasses(env: Env, r: RawSite) {
    && (r.id.Some? && r.id.value != "") && (r.name.Some? && r.name.value != "") && (r.status.Some? && r.status.value != "")
    && (r.rootPath.Some? && r.rootPath.value != "") && r.preset.Some? && r.preset.value in ["MODX_REVO", "MODX_3", "CUSTOM"]
    && KeyInWords(env, r.name.value, r.phpVersion)
    && (r.appPort.NoNumber? || (r.appPort.Whole? && 0 < r.appPort.n < 65536))
  }

  lemma {:induction false} SiteRowInWords(env: Env, r: RawSite)
    ensures SiteRowPasses(env, r) <==> SiteComplete(r) && SiteFits(env, SiteOf(r))
  {
    if r.name.Some? { KeySaysTheSame(env, r.name.value, r.phpVersion); }
  }

  ghost predicate SitesPass(env: Env, rows: seq<RawSite>) {
    (forall r <- rows :: SiteRowPasses(env, r)) && forall i, j | 0 <= i < j < |rows| :: rows[i].id != rows[j].id
  }

  lemma {:induction false} SitesInWords(env: Env, rows: seq<RawSite>)
    ensures SitesReadable(env, rows) <==> SitesPass(env, rows)
  {
    TableInWords(rows, SiteComplete, SiteOf, SiteId, SiteFitsIn(env));
    forall r <- rows ensures SiteRowPasses(env, r) <==> SiteComplete(r) && SiteFitsIn(env)(SiteOf(r)) { SiteRowInWords(env, r); }
  }

  /** The host names a legacy domain answers to. */
  ghost predicate LeadsTo(env: Env, d: Domain, name: string) {
    || env.hostname(d.domain) == Some(name)
    || (env.aliasItems(d.aliases).Some? && ItemNames(env, env.aliasItems(d.aliases).value, name))
  }

  predicate DomainRowPasses(env: Env, r: RawDomain) {
    && (r.id.Some? && r.id.value != "") && (r.siteId.Some? && r.siteId.value != "") && (r.domain.Some? && r.domain.value != "")
    && r.isPrimary.Some? && r.position.Whole? && r.aliases.Some?
    && env.hostname(r.domain.value).Some? && env.aliasItems(r.aliases.value).Some?
    && (forall item <- env.aliasItems(r.aliases.value).value :: UsableName(env, item))
    && (r.appPort.NoNumber? || (r.appPort.Whole? && 0 < r.appPort.n < 65536))
  }

  lemma {:induction false} DomainRowInWords(env: Env, r: RawDomain)
    ensures DomainRowPasses(env, r) <==> DomainComplete(r) && DomainFits(env, DomainOf(r))
  {
    if r.aliases.Some? && env.aliasItems(r.aliases.value).Some? { AliasItems(env, env.aliasItems(r.aliases.value).value); }
  }

  ghost predicate DomainsPass(env: Env, rows: seq<RawDomain>) {
    && (forall r <- rows :: DomainRowPasses(env, r))
    && (forall i, j | 0 <= i < j < |rows| :: rows[i].id != rows[j].id)
    && (forall c, d, name | c in DomainsOf(rows) && d in DomainsOf(rows) && LeadsTo(env, c, name) && LeadsTo(env, d, name) ::
          c.id == d.id)
  }

  lemma {:induction false} LegacyNames(env: Env, d: Domain)
    requires DomainFits(env, d)
    ensures forall claim :: claim in HostClaims(env)(d) <==> claim.owner == d.id && !claim.exclusive && LeadsTo(env, d, claim.key)
  {
    AliasItems(env, env.aliasItems(d.aliases).value);
    ClaimsOfNames([env.hostname(d.domain).value] + Aliases(env, d.aliases).value, d.id);
  }

  lemma {:induction false} LegacyNamesApart(env: Env, domains: seq<Domain>)
    requires All(domains, DomainFitsIn(env))
    ensures Compatible(Concat(domains, HostClaims(env))) <==>
              forall c, d, name | c in domains && d in domains && LeadsTo(env, c, name) && LeadsTo(env, d, name) :: c.id == d.id
  {
    var says := (d: Domain, name: string) => LeadsTo(env, d, name);
    forall d <- domains ensures ClaimsOf(d, HostClaims(env), DomainId, says) {
      assert DomainFitsIn(env)(d);
      LegacyNames(env, d);
    }
    ClaimsInWords(domains, HostClaims(env), DomainId, says);
    if Compatible(Concat(domains, HostClaims(env))) {
      forall c, d, name | c in domains && d in domains && LeadsTo(env, c, name) && LeadsTo(env, d, name) ensures c.id == d.id {
        assert says(c, name) && says(d, name);
      }
    }
  }

  lemma {:induction false} DomainRowsInWords(env: Env, rows: seq<RawDomain>)
    ensures Readable(rows, DomainComplete, DomainOf, DomainId, DomainFitsIn(env)) <==>
              (forall r <- rows :: DomainRowPasses(env, r)) && forall i, j | 0 <= i < j < |rows| :: rows[i].id != rows[j].id
  {
    TableInWords(rows, DomainComplete, DomainOf, DomainId, DomainFitsIn(env));
    forall r <- rows ensures DomainRowPasses(env, r) <==> DomainComplete(r) && DomainFitsIn(env)(DomainOf(r)) { DomainRowInWords(env, r); }
  }

  lemma {:induction false} DomainTableInWords(env: Env, rows: seq<RawDomain>)
    ensures DomainsReadable(env, rows) <==> DomainsPass(env, rows)
  {
    DomainRowsInWords(env, rows);
    if Readable(rows, DomainComplete, DomainOf, DomainId, DomainFitsIn(env)) {
      LegacyNamesApart(env, DomainsOf(rows));
    }
  }

  ghost predicate DatabasesPass(rows: seq<RawDatabase>) {
    && (forall r <- rows ::
          (r.id.Some? && r.id.value != "") && (r.name.Some? && r.name.value != "") && (r.dbType.Some? && r.dbType.value != ""))
    && (forall i, j | 0 <= i < j < |rows| :: rows[i].id != rows[j].id)
  }

  lemma {:induction false} DatabaseTableInWords(rows: seq<RawDatabase>)
    ensures DatabasesReadable(rows) <==> DatabasesPass(rows)
  {
    TableInWords(rows, DatabaseComplete, DatabaseOf, DatabaseId, Always);
  }

  /** Every domain and every database belongs to a site, and a database's domain to the same one. */
  ghost predicate Rooted(t: Tables) {
    && (forall d <- DomainsOf(t.domains) :: exists s <- SitesOf(t.sites) :: s.id == d.siteId)
    && (forall d <- DatabasesOf(t.databases) ::
          && (exists s <- SitesOf(t.sites) :: d.siteId == Some(s.id))
          && (d.siteDomainId == None
              || exists e <- DomainsOf(t.domains) :: d.siteDomainId == Some(e.id) && d.siteId == Some(e.siteId)))
  }

  lemma {:induction false} ReferencesInWords(t: Tables)
    ensures ReferencesPass(t) <==> Rooted(t)
  {
    MapMembers(SitesOf(t.sites), SiteId);
  }

  // ------------------------------------------------------------------ runtime keys

  /** Two domains of the installation never get the same runtime key. */
  ghost predicate KeysDiffer(env: Env, t: Tables) {
    forall a, b, c, d, key |
      a in SitesOf(t.sites) && b in SitesOf(t.sites) && c in Own(t, a) && d in Own(t, b)
      && KeyOfDomain(env, a, c, key) && KeyOfDomain(env, b, d, key) :: c.id == d.id
  }

  /** Appending claims adds only the clashes across the seam. */
  lemma {:induction false} CompatibleAppend(a: seq<Claim>, b: seq<Claim>)
    ensures Compatible(a + b) <==> Compatible(a) && Compatible(b) && forall x, y | x in a && y in b :: !Clash(x, y)
  {
    var all := a + b;
    if Compatible(all) {
      forall i, j | 0 <= i < j < |a| ensures !Clash(a[i], a[j]) { assert all[i] == a[i] && all[j] == a[j]; }
      forall i, j | 0 <= i < j < |b| ensures !Clash(b[i], b[j]) { assert all[|a| + i] == b[i] && all[|a| + j] == b[j]; }
      forall x, y | x in a && y in b ensures !Clash(x, y) {
        var i :| 0 <= i < |a| && a[i] == x;
        var j :| 0 <= j < |b| && b[j] == y;
        assert all[i] == x && all[|a| + j] == y;
      }
    }
    if Compatible(a) && Compatible(b) && forall x, y | x in a && y in b :: !Clash(x, y) {
      forall i, j | 0 <= i < j < |all| ensures !Clash(all[i], all[j]) {
        if j >= |a| && i < |a| { assert all[i] in a && all[j] in b; }
      }
    }
  }

  lemma {:induction false} OneSitesClaims(env: Env, site: Site, sorted: seq<Domain>)
    ensures Compatible(RuntimeClaims(env, site, sorted)) <==> Functional(RuntimeClaims(env, site, sorted))
  {
    var claims := RuntimeClaims(env, site, sorted);
    CompatibleMeansFunctional(claims);
    if Functional(claims) {
      forall i, j | 0 <= i < j < |claims| ensures !Clash(claims[i], claims[j]) {
        assert claims[j] == ClaimFor(env, site, PrimaryOf(sorted).id)(sorted[j - 1]);
        assert claims[i] in claims && claims[j] in claims;
      }
    }
  }

  /** Who claims what for one site: each of its domains its key. */
  lemma {:induction false} SiteClaimMembers(env: Env, site: Site, sorted: seq<Domain>)
    requires OnePrimary(sorted) && Flagged(sorted, PrimaryOf(sorted))
    ensures forall c <- RuntimeClaims(env, site, sorted) :: exists d <- sorted :: c.owner == d.id && KeyOfDomain(env, site, d, c.key)
    ensures forall d, key | d in sorted && KeyOfDomain(env, site, d, key) :: Claim(key, d.id, false) in RuntimeClaims(env, site, sorted)
  {
    var primary := PrimaryOf(sorted);
    var claims := Map(sorted, ClaimFor(env, site, primary.id));
    FilterMembers(sorted, Primary);
    assert primary in Filter(sorted, Primary);
    MapMembers(sorted, ClaimFor(env, site, primary.id));
    assert RuntimeClaims(env, site, sorted) == [Claim(site.name, primary.id, true)] + claims;
    assert KeyOfDomain(env, site, primary, site.name);
    forall d <- sorted ensures KeyOfDomain(env, site, d, ClaimFor(env, site, primary.id)(d).key) {}
  }

  /** A site of the list whose domains are placed, so that its claims are those of its own domains. */
  ghost predicate Placed(env: Env, t: Tables, site: Site) {
    OnePrimary(DomainsFor(env, t, site)) && Flagged(DomainsFor(env, t, site), PrimaryOf(DomainsFor(env, t, site)))
  }

  lemma {:induction false} OwnersDiffer(env: Env, t: Tables, most: seq<Site>, last: Site, x: Claim, y: Claim)
    requires IdsDistinct(t) && Distinct(Map(most + [last], SiteId)) && forall s <- most + [last] :: Placed(env, t, s)
    requires x in RuntimeClaimsOf(env, t, most) && y in ClaimsIn(env, t)(last)
    ensures x.owner != y.owner
  {
    var site := PieceOf(most, ClaimsIn(env, t), x);
    assert last in most + [last] && site in most + [last];
    SiteClaimMembers(env, site, DomainsFor(env, t, site));
    SiteClaimMembers(env, last, DomainsFor(env, t, last));
    var c :| c in DomainsFor(env, t, site) && x.owner == c.id;
    var d :| d in DomainsFor(env, t, last) && y.owner == d.id;
    OwnDomain(env, t, site, c);
    OwnDomain(env, t, last, d);
    if c.id == d.id {
      SameIdSameDomain(DomainsOf(t.domains), c, d);
      MapOne(most, last, SiteId);
      DistinctGrows(Map(most, SiteId), last.id);
      ImageOf(most, SiteId, site);
    }
  }

  lemma {:induction false} SitesClaims(env: Env, t: Tables, sites: seq<Site>)
    requires IdsDistinct(t) && Distinct(Map(sites, SiteId)) && forall s <- sites :: Placed(env, t, s)
    ensures Compatible(RuntimeClaimsOf(env, t, sites)) <==> Functional(RuntimeClaimsOf(env, t, sites))
  {
    if sites != [] {
      var most, last := sites[..|sites| - 1], sites[|sites| - 1];
      assert sites == most + [last];
      MapOne(most, last, SiteId);
      DistinctGrows(Map(most, SiteId), last.id);
      SitesClaims(env, t, most);
      var a, b := RuntimeClaimsOf(env, t, most), ClaimsIn(env, t)(last);
      OneSitesClaims(env, last, DomainsFor(env, t, last));
      CompatibleAppend(a, b);
      forall x, y | x in a && y in b ensures x.owner != y.owner { OwnersDiffer(env, t, most, last, x, y); }
      assert RuntimeClaimsOf(env, t, sites) == a + b;
      FunctionalAppend(a, b);
    }
  }

  lemma {:induction false} FunctionalAppend(a: seq<Claim>, b: seq<Claim>)
    requires forall x, y | x in a && y in b :: x.owner != y.owner
    ensures Functional(a + b) <==> Functional(a) && Functional(b) && forall x, y | x in a && y in b :: !Clash(x, y)
  {
  }

  lemma {:induction false} KeysSayTheSame(env: Env, t: Tables, sites: seq<Site>)
    requires IdsDistinct(t) && multiset(sites) == multiset(SitesOf(t.sites)) && Distinct(Map(sites, SiteId))
    requires forall s <- sites :: Placed(env, t, s)
    ensures Compatible(RuntimeClaimsOf(env, t, sites)) <==> KeysDiffer(env, t)
  {
    var claims := RuntimeClaimsOf(env, t, sites);
    SitesClaims(env, t, sites);
    SamePermutation(sites, SitesOf(t.sites));
    if Functional(claims) {
      forall a, b, c, d, key |
        a in SitesOf(t.sites) && b in SitesOf(t.sites) && c in Own(t, a) && d in Own(t, b)
        && KeyOfDomain(env, a, c, key) && KeyOfDomain(env, b, d, key)
        ensures c.id == d.id
      {
        KeyIsClaimed(env, t, sites, a, c, key);
        KeyIsClaimed(env, t, sites, b, d, key);
      }
    }
    if KeysDiffer(env, t) {
      forall x, y | x in claims && y in claims && x.key == y.key ensures x.owner == y.owner {
        var a, c := ClaimIsKey(env, t, sites, x);
        var b, d := ClaimIsKey(env, t, sites, y);
      }
    }
  }

  lemma {:induction false} KeyIsClaimed(env: Env, t: Tables, sites: seq<Site>, a: Site, c: Domain, key: string)
    requires a in sites && Placed(env, t, a) && c in Own(t, a) && KeyOfDomain(env, a, c, key)
    ensures Claim(key, c.id, false) in RuntimeClaimsOf(env, t, sites)
  {
    SamePermutation(Own(t, a), DomainsFor(env, t, a));
    SiteClaimMembers(env, a, DomainsFor(env, t, a));
    PieceIsIn(sites, ClaimsIn(env, t), a);
  }

  lemma {:induction false} ClaimIsKey(env: Env, t: Tables, sites: seq<Site>, x: Claim) returns (a: Site, c: Domain)
    requires x in RuntimeClaimsOf(env, t, sites) && forall s <- sites :: Placed(env, t, s)
    ensures a in sites && c in Own(t, a) && x.owner == c.id && KeyOfDomain(env, a, c, x.key)
  {
    a := PieceOf(sites, ClaimsIn(env, t), x);
    SamePermutation(Own(t, a), DomainsFor(env, t, a));
    SiteClaimMembers(env, a, DomainsFor(env, t, a));
    c :| c in DomainsFor(env, t, a) && x.owner == c.id && KeyOfDomain(env, a, c, x.key);
  }

  // -------------------------------------------------------------------- the theorem

  ghost predicate HasPrimary(env: Env, t: Tables, site: Site) { exists primary :: SiteAccepted(env, t, site, primary) }

  ghost predicate Accepted(env: Env, t: Tables) {
    && SitesPass(env, t.sites) && DomainsPass(env, t.domains) && DatabasesPass(t.databases) && Rooted(t)
    && (forall site <- SitesOf(t.sites) :: HasPrimary(env, t, site))
    && KeysDiffer(env, t)
  }

  lemma {:induction false} SiteVerdict(env: Env, t: Tables, site: Site)
    requires IdsDistinct(t) && StrictWeakOrder(env.less)
    ensures SitePasses(env, t, site) <==> HasPrimary(env, t, site)
    ensures SitePasses(env, t, site) ==> Placed(env, t, site)
  {
    if SitePasses(env, t, site) {
      var primary := PrimaryOf(DomainsFor(env, t, site));
      SiteInWords(env, t, site, primary);
      assert HasPrimary(env, t, site) by { assert SiteAccepted(env, t, site, primary); }
      PlacedIsFlagged(t, site, primary);
      SamePermutation(Own(t, site), DomainsFor(env, t, site));
    }
    if HasPrimary(env, t, site) {
      var primary :| SiteAccepted(env, t, site, primary);
      SiteInWords(env, t, site, primary);
    }
  }

  /** The mapper accepts exactly these installations. */
  lemma {:induction false} MappedMeansAccepted(env: Env, t: Tables)
    requires StrictWeakOrder(env.less)
    ensures LegacyOk(env, t) <==> Accepted(env, t)
  {
    SitesInWords(env, t.sites);
    DomainTableInWords(env, t.domains);
    DatabaseTableInWords(t.databases);
    ReferencesInWords(t);
    if TablesReadable(env, t) {
      var ordered := OrderedSites(env, t);
      SamePermutation(SitesOf(t.sites), ordered);
      MapPermuted(SitesOf(t.sites), ordered, SiteId);
      PermutationDistinct(Map(SitesOf(t.sites), SiteId), Map(ordered, SiteId));
      forall site <- ordered
        ensures (SitePassesIn(env, t)(site) <==> HasPrimary(env, t, site)) && (SitePassesIn(env, t)(site) ==> Placed(env, t, site))
      {
        SiteVerdict(env, t, site);
      }
      if All(ordered, SitePassesIn(env, t)) {
        KeysSayTheSame(env, t, ordered);
      }
    }
  }
}
