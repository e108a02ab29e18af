/** The staging rows of a mappable installation: exactly one per site, domain and database, with keys the
    staging table's primary key accepts (migrations/release/mapper.ts:485-513, 771-889, 995-1017). */
module MapCoverage {
  import opened Common
  import opened LegacySource
  import opened PrimaryDatabase
  import opened SitePlan
  import opened LegacyMap

  function KeyOf(row: MapRow): (Kind, string) { (row.kind, row.sourceId) }

  /** Where a row of a site comes from. */
  ghost predicate ComesFrom(env: Env, t: Tables, site: Site, row: MapRow) {
    row.siteId == site.id &&
    match row.kind
    case SiteKind => row.sourceId == site.id
    case DomainKind => exists d <- DomainsFor(env, t, site) :: d.id == row.sourceId
    case DatabaseKind => exists d <- DatabasesFor(t, site) :: d.id == row.sourceId
  }

  /** The three parts of a site's rows. */
  ghost function DomainPart(env: Env, t: Tables, site: Site): seq<MapRow>
    requires SitePasses(env, t, site)
  {
    Map(DomainsFor(env, t, site), DomainRowIn(env, t, site))
  }

  ghost function DatabasePart(env: Env, t: Tables, site: Site): seq<MapRow>
    requires SitePasses(env, t, site)
  {
    Map(SortedDatabases(env, DatabasesFor(t, site)), DatabaseRowIn(env, t, site))
  }

  ghost function DomainRowIn(env: Env, t: Tables, site: Site): Domain -> MapRow
    requires SitePasses(env, t, site)
  {
    var primary := PrimaryOf(DomainsFor(env, t, site));
    DomainRowFor(env, site, primary.id, PhpIds(env, site, primary.id, DomainsFor(env, t, site)))
  }

  ghost function DatabaseRowIn(env: Env, t: Tables, site: Site): Database -> MapRow
    requires SitePasses(env, t, site)
  {
    var primary := PrimaryOf(DomainsFor(env, t, site));
    DatabaseRowFor(site, primary.id, ChoiceFor(env, site, primary, DatabasesFor(t, site)))
  }

  ghost function SiteRowIn(env: Env, t: Tables, site: Site): MapRow
    requires SitePasses(env, t, site)
  {
    SiteRow(site, PrimaryOf(DomainsFor(env, t, site)).id)
  }

  lemma {:induction false} RowsShape(env: Env, t: Tables, site: Site)
    requires SitePasses(env, t, site)
    ensures RowsIn(env, t)(site) == [SiteRowIn(env, t, site)] + DomainPart(env, t, site) + DatabasePart(env, t, site)
  {
  }

  lemma {:induction false} DomainRowShape(env: Env, t: Tables, site: Site, d: Domain)
    requires SitePasses(env, t, site)
    ensures var row := DomainRowIn(env, t, site)(d); KeyOf(row) == (DomainKind, d.id) && row.siteId == site.id
  {
  }

  lemma {:induction false} DatabaseRowShape(env: Env, t: Tables, site: Site, d: Database)
    requires SitePasses(env, t, site)
    ensures var row := DatabaseRowIn(env, t, site)(d); KeyOf(row) == (DatabaseKind, d.id) && row.siteId == site.id
  {
  }

  lemma {:induction false} DomainPartOrigin(env: Env, t: Tables, site: Site, row: MapRow)
    requires SitePasses(env, t, site) && row in DomainPart(env, t, site)
    ensures ComesFrom(env, t, site, row)
  {
    MapMembers(DomainsFor(env, t, site), DomainRowIn(env, t, site));
    var d :| d in DomainsFor(env, t, site) && row == DomainRowIn(env, t, site)(d);
    DomainRowShape(env, t, site, d);
  }

  lemma {:induction false} DatabasePartOrigin(env: Env, t: Tables, site: Site, row: MapRow)
    requires SitePasses(env, t, site) && row in DatabasePart(env, t, site)
    ensures ComesFrom(env, t, site, row)
  {
    var sorted := SortedDatabases(env, DatabasesFor(t, site));
    SamePermutation(DatabasesFor(t, site), sorted);
    MapMembers(sorted, DatabaseRowIn(env, t, site));
    var d :| d in sorted && row == DatabaseRowIn(env, t, site)(d);
    DatabaseRowShape(env, t, site, d);
  }

  lemma {:induction false} RowOrigin(env: Env, t: Tables, site: Site, row: MapRow)
    requires row in RowsIn(env, t)(site)
    ensures SitePasses(env, t, site) && ComesFrom(env, t, site, row)
  {
    assert SitePasses(env, t, site);
    RowsShape(env, t, site);
    if row in DomainPart(env, t, site) {
      DomainPartOrigin(env, t, site, row);
    } else if row in DatabasePart(env, t, site) {
      DatabasePartOrigin(env, t, site, row);
    } else {
      assert row == SiteRowIn(env, t, site);
    }
  }

  lemma {:induction false} OwnDomain(env: Env, t: Tables, site: Site, d: Domain)
    ensures d in DomainsFor(env, t, site) <==> d in DomainsOf(t.domains) && d.siteId == site.id
  {
    var own := Filter(DomainsOf(t.domains), OnSite(site.id));
    FilterMembers(DomainsOf(t.domains), OnSite(site.id));
    SamePermutation(own, DomainsFor(env, t, site));
  }

  lemma {:induction false} OwnDatabase(t: Tables, site: Site, d: Database)
    ensures d in DatabasesFor(t, site) <==> d in DatabasesOf(t.databases) && d.siteId == Some(site.id)
  {
    FilterMembers(DatabasesOf(t.databases), ForSite(site.id));
  }

  lemma {:induction false} SameDatabase(databases: seq<Database>, a: Database, b: Database)
    requires Distinct(Map(databases, DatabaseId)) && a in databases && b in databases && a.id == b.id
    ensures a == b
  {
    var i :| 0 <= i < |databases| && databases[i] == a;
    var j :| 0 <= j < |databases| && databases[j] == b;
    var ids := Map(databases, DatabaseId);
    assert ids[i] == a.id && ids[j] == b.id;
  }

  lemma {:induction false} SameSite(sites: seq<Site>, a: Site, b: Site)
    requires Distinct(Map(sites, SiteId)) && a in sites && b in sites && a.id == b.id
    ensures a == b
  {
    var i :| 0 <= i < |sites| && sites[i] == a;
    var j :| 0 <= j < |sites| && sites[j] == b;
    var ids := Map(sites, SiteId);
    assert ids[i] == a.id && ids[j] == b.id;
  }

  /** Identifiers are distinct in all three tables. */
  ghost predicate IdsDistinct(t: Tables) {
    Distinct(Map(DomainsOf(t.domains), DomainId)) && Distinct(Map(DatabasesOf(t.databases), DatabaseId))
  }

  /** Two rows with one key belong to one site. */
  lemma {:induction false} KeyFixesSite(env: Env, t: Tables, a: Site, b: Site, r: MapRow, q: MapRow)
    requires IdsDistinct(t) && ComesFrom(env, t, a, r) && ComesFrom(env, t, b, q) && KeyOf(r) == KeyOf(q)
    ensures a.id == b.id
  {
    match r.kind {
      case SiteKind =>
      case DomainKind =>
        var d :| d in DomainsFor(env, t, a) && d.id == r.sourceId;
        var e :| e in DomainsFor(env, t, b) && e.id == q.sourceId;
        OwnDomain(env, t, a, d);
        OwnDomain(env, t, b, e);
        SameIdSameDomain(DomainsOf(t.domains), d, e);
      case DatabaseKind =>
        var d :| d in DatabasesFor(t, a) && d.id == r.sourceId;
        var e :| e in DatabasesFor(t, b) && e.id == q.sourceId;
        OwnDatabase(t, a, d);
        OwnDatabase(t, b, e);
        SameDatabase(DatabasesOf(t.databases), d, e);
    }
  }

  function KeyedAs(kind: Kind, ids: seq<string>): seq<(Kind, string)> { Map(ids, (id: string) => (kind, id)) }

  lemma {:induction false} KeyedDistinct(kind: Kind, ids: seq<string>)
    requires Distinct(ids)
    ensures Distinct(KeyedAs(kind, ids))
    ensures forall key <- KeyedAs(kind, ids) :: key.0 == kind
  {
    forall key <- KeyedAs(kind, ids) ensures key.0 == kind {
      var i :| 0 <= i < |ids| && KeyedAs(kind, ids)[i] == key;
    }
    forall i, j | 0 <= i < j < |ids| ensures KeyedAs(kind, ids)[i] != KeyedAs(kind, ids)[j] {
      assert ids[i] != ids[j];
    }
  }

  lemma {:induction false} DomainPartKeys(env: Env, t: Tables, site: Site)
    requires SitePasses(env, t, site)
    ensures Map(DomainPart(env, t, site), KeyOf) == KeyedAs(DomainKind, Map(DomainsFor(env, t, site), DomainId))
  {
    forall i | 0 <= i < |DomainsFor(env, t, site)| ensures KeyOf(DomainPart(env, t, site)[i]) == (DomainKind, DomainsFor(env, t, site)[i].id) {
      DomainRowShape(env, t, site, DomainsFor(env, t, site)[i]);
    }
  }

  lemma {:induction false} DatabasePartKeys(env: Env, t: Tables, site: Site)
    requires SitePasses(env, t, site)
    ensures Map(DatabasePart(env, t, site), KeyOf)
         == KeyedAs(DatabaseKind, Map(SortedDatabases(env, DatabasesFor(t, site)), DatabaseId))
  {
    var sorted := SortedDatabases(env, DatabasesFor(t, site));
    forall i | 0 <= i < |sorted| ensures KeyOf(DatabasePart(env, t, site)[i]) == (DatabaseKind, sorted[i].id) {
      DatabaseRowShape(env, t, site, sorted[i]);
    }
  }

  lemma {:induction false} DatabaseIdsDistinct(env: Env, t: Tables, site: Site)
    requires IdsDistinct(t)
    ensures Distinct(Map(SortedDatabases(env, DatabasesFor(t, site)), DatabaseId))
  {
    var own := DatabasesFor(t, site);
    var sorted := SortedDatabases(env, own);
    FilterKeepsDistinct(DatabasesOf(t.databases), ForSite(site.id), DatabaseId);
    MapPermuted(own, sorted, DatabaseId);
    PermutationDistinct(Map(own, DatabaseId), Map(sorted, DatabaseId));
  }

  lemma {:induction false} SiteKeysDistinct(env: Env, t: Tables, site: Site)
    requires IdsDistinct(t) && SitePasses(env, t, site)
    ensures Distinct(Map(RowsIn(env, t)(site), KeyOf))
  {
    RowsShape(env, t, site);
    DomainPartKeys(env, t, site);
    DatabasePartKeys(env, t, site);
    SortedIdsDistinct(env, t, site);
    DatabaseIdsDistinct(env, t, site);
    KeyedDistinct(DomainKind, Map(DomainsFor(env, t, site), DomainId));
    KeyedDistinct(DatabaseKind, Map(SortedDatabases(env, DatabasesFor(t, site)), DatabaseId));
    ThreeParts(SiteRowIn(env, t, site), DomainPart(env, t, site), DatabasePart(env, t, site));
  }

  lemma {:induction false} ThreeParts(first: MapRow, second: seq<MapRow>, third: seq<MapRow>)
    requires first.kind == SiteKind && Distinct(Map(second, KeyOf)) && Distinct(Map(third, KeyOf))
    requires forall key <- Map(second, KeyOf) :: key.0 == DomainKind
    requires forall key <- Map(third, KeyOf) :: key.0 == DatabaseKind
    ensures Distinct(Map([first] + second + third, KeyOf))
  {
    DistinctAppend([KeyOf(first)], Map(second, KeyOf));
    DistinctAppend([KeyOf(first)] + Map(second, KeyOf), Map(third, KeyOf));
    MapAppend([first] + second, third, KeyOf);
    MapAppend([first], second, KeyOf);
    assert Map([first], KeyOf) == [KeyOf(first)];
  }

  lemma {:induction false} AllKeysDistinct(env: Env, t: Tables, sites: seq<Site>)
    requires IdsDistinct(t) && Distinct(Map(sites, SiteId)) && All(sites, SitePassesIn(env, t))
    ensures Distinct(Map(Concat(sites, RowsIn(env, t)), KeyOf))
  {
    if sites != [] {
      var most, last := sites[..|sites| - 1], sites[|sites| - 1];
      assert sites == most + [last];
      MapOne(most, last, SiteId);
      DistinctGrows(Map(most, SiteId), last.id);
      AllGrows(most, last, SitePassesIn(env, t));
      AllKeysDistinct(env, t, most);
      SiteKeysDistinct(env, t, last);
      MapAppend(Concat(most, RowsIn(env, t)), RowsIn(env, t)(last), KeyOf);
      KeysApart(env, t, most, last);
      DistinctAppend(Map(Concat(most, RowsIn(env, t)), KeyOf), Map(RowsIn(env, t)(last), KeyOf));
    }
  }

  lemma {:induction false} RowsApart(env: Env, t: Tables, most: seq<Site>, last: Site, r: MapRow, q: MapRow)
    requires IdsDistinct(t) && last.id !in Map(most, SiteId)
    requires r in Concat(most, RowsIn(env, t)) && q in RowsIn(env, t)(last)
    ensures KeyOf(r) != KeyOf(q)
  {
    MapMembers(most, SiteId);
    ConcatMembers(most, RowsIn(env, t));
    var site :| site in most && r in RowsIn(env, t)(site);
    RowOrigin(env, t, site, r);
    RowOrigin(env, t, last, q);
    if KeyOf(r) == KeyOf(q) {
      KeyFixesSite(env, t, site, last, r, q);
    }
  }

  lemma {:induction false} KeysApart(env: Env, t: Tables, most: seq<Site>, last: Site)
    requires IdsDistinct(t) && last.id !in Map(most, SiteId)
    ensures forall key <- Map(Concat(most, RowsIn(env, t)), KeyOf) :: key !in Map(RowsIn(env, t)(last), KeyOf)
  {
    var earlier, own := Concat(most, RowsIn(env, t)), RowsIn(env, t)(last);
    forall r, q | r in earlier && q in own ensures KeyOf(r) != KeyOf(q) {
      RowsApart(env, t, most, last, r, q);
    }
    DisjointImages(earlier, own);
  }

  lemma {:induction false} DisjointImages(a: seq<MapRow>, b: seq<MapRow>)
    requires forall r, q | r in a && q in b :: KeyOf(r) != KeyOf(q)
    ensures forall key <- Map(a, KeyOf) :: key !in Map(b, KeyOf)
  {
    MapMembers(a, KeyOf);
    MapMembers(b, KeyOf);
  }

  lemma {:induction false} MappableIds(env: Env, t: Tables)
    requires LegacyOk(env, t)
    ensures IdsDistinct(t) && Distinct(Map(SitesOf(t.sites), SiteId)) && Distinct(Map(OrderedSites(env, t), SiteId))
  {
    MapPermuted(SitesOf(t.sites), OrderedSites(env, t), SiteId);
    PermutationDistinct(Map(SitesOf(t.sites), SiteId), Map(OrderedSites(env, t), SiteId));
  }

  /** No two rows of a map share their kind and source: the table's primary key holds. */
  lemma {:induction false} RowKeysDistinct(env: Env, t: Tables)
    requires LegacyOk(env, t)
    ensures Distinct(Map(MapRows(env, t), KeyOf))
  {
    var rows := Concat(OrderedSites(env, t), RowsIn(env, t));
    MappableIds(env, t);
    AllKeysDistinct(env, t, OrderedSites(env, t));
    MapPermuted(rows, MapRows(env, t), KeyOf);
    PermutationDistinct(Map(rows, KeyOf), Map(MapRows(env, t), KeyOf));
  }

  lemma {:induction false} MappableSitePasses(env: Env, t: Tables, site: Site)
    requires LegacyOk(env, t) && site in SitesOf(t.sites)
    ensures site in OrderedSites(env, t) && SitePasses(env, t, site)
  {
    SamePermutation(SitesOf(t.sites), OrderedSites(env, t));
    assert SitePassesIn(env, t)(site);
  }

  lemma {:induction false} MappableSite(env: Env, t: Tables, site: Site)
    requires LegacyOk(env, t) && site in SitesOf(t.sites)
    ensures SitePasses(env, t, site)
    ensures forall row <- RowsIn(env, t)(site) :: row in MapRows(env, t)
  {
    MappableSitePasses(env, t, site);
    PieceIsIn(OrderedSites(env, t), RowsIn(env, t), site);
    SamePermutation(Concat(OrderedSites(env, t), RowsIn(env, t)), MapRows(env, t));
  }

  ghost predicate OwnerIs(t: Tables, site: Site, siteId: string) {
    site in SitesOf(t.sites) && site.id == siteId
  }

  lemma {:induction false} OwnerExists(t: Tables, siteId: string) returns (site: Site)
    requires siteId in Map(SitesOf(t.sites), SiteId)
    ensures OwnerIs(t, site, siteId)
  {
    MapMembers(SitesOf(t.sites), SiteId);
    site :| site in SitesOf(t.sites) && site.id == siteId;
  }

  lemma {:induction false} DomainHasRow(env: Env, t: Tables, site: Site, d: Domain)
    requires LegacyOk(env, t) && OwnerIs(t, site, d.siteId) && d in DomainsOf(t.domains)
    ensures SitePasses(env, t, site) && DomainRowIn(env, t, site)(d) in MapRows(env, t)
  {
    MappableSite(env, t, site);
    OwnDomain(env, t, site, d);
    RowsShape(env, t, site);
    MapMembers(DomainsFor(env, t, site), DomainRowIn(env, t, site));
    assert DomainRowIn(env, t, site)(d) in DomainPart(env, t, site);
    assert DomainRowIn(env, t, site)(d) in RowsIn(env, t)(site);
  }

  lemma {:induction false} DatabaseHasRow(env: Env, t: Tables, site: Site, d: Database)
    requires LegacyOk(env, t) && d.siteId.Some? && OwnerIs(t, site, d.siteId.value) && d in DatabasesOf(t.databases)
    ensures SitePasses(env, t, site) && DatabaseRowIn(env, t, site)(d) in MapRows(env, t)
  {
    MappableSite(env, t, site);
    OwnDatabase(t, site, d);
    var databases := SortedDatabases(env, DatabasesFor(t, site));
    SamePermutation(DatabasesFor(t, site), databases);
    RowsShape(env, t, site);
    MapMembers(databases, DatabaseRowIn(env, t, site));
    assert DatabaseRowIn(env, t, site)(d) in DatabasePart(env, t, site);
    assert DatabaseRowIn(env, t, site)(d) in RowsIn(env, t)(site);
  }

  lemma {:induction false} SiteHasRow(env: Env, t: Tables, site: Site)
    requires LegacyOk(env, t) && site in SitesOf(t.sites)
    ensures SitePasses(env, t, site) && SiteRowIn(env, t, site) in MapRows(env, t)
  {
    MappableSite(env, t, site);
    RowsShape(env, t, site);
    assert SiteRowIn(env, t, site) in RowsIn(env, t)(site);
  }

  /** The identifier of a legacy record of the given kind. */
  ghost predicate HasSource(t: Tables, kind: Kind, id: string) {
    match kind
    case SiteKind => id in Map(SitesOf(t.sites), SiteId)
    case DomainKind => id in Map(DomainsOf(t.domains), DomainId)
    case DatabaseKind => id in Map(DatabasesOf(t.databases), DatabaseId)
  }

  lemma {:induction false} OriginIsSource(env: Env, t: Tables, site: Site, row: MapRow)
    requires site in SitesOf(t.sites) && ComesFrom(env, t, site, row)
    ensures HasSource(t, row.kind, row.sourceId)
  {
    match row.kind {
      case SiteKind => MapMembers(SitesOf(t.sites), SiteId);
      case DomainKind =>
        var d :| d in DomainsFor(env, t, site) && d.id == row.sourceId;
        OwnDomain(env, t, site, d);
        MapMembers(DomainsOf(t.domains), DomainId);
      case DatabaseKind =>
        var d :| d in DatabasesFor(t, site) && d.id == row.sourceId;
        OwnDatabase(t, site, d);
        MapMembers(DatabasesOf(t.databases), DatabaseId);
    }
  }

  /** Every row is one of some site's. */
  lemma {:induction false} SiteOfRow(env: Env, t: Tables, m: MapRow) returns (site: Site)
    requires LegacyOk(env, t) && m in MapRows(env, t)
    ensures site in SitesOf(t.sites) && m in RowsIn(env, t)(site)
  {
    SamePermutation(Concat(OrderedSites(env, t), RowsIn(env, t)), MapRows(env, t));
    site := PieceOf(OrderedSites(env, t), RowsIn(env, t), m);
    SamePermutation(SitesOf(t.sites), OrderedSites(env, t));
  }

  lemma {:induction false} RowHasSource(env: Env, t: Tables, row: MapRow)
    requires LegacyOk(env, t) && row in MapRows(env, t)
    ensures HasSource(t, row.kind, row.sourceId)
  {
    var site := SiteOfRow(env, t, row);
    RowOrigin(env, t, site, row);
    OriginIsSource(env, t, site, row);
  }

  lemma {:induction false} SourceHasRow(env: Env, t: Tables, kind: Kind, id: string) returns (row: MapRow)
    requires LegacyOk(env, t) && HasSource(t, kind, id)
    ensures row in MapRows(env, t) && KeyOf(row) == (kind, id)
  {
    match kind {
      case SiteKind =>
        var site := OwnerExists(t, id);
        SiteHasRow(env, t, site);
        row := SiteRowIn(env, t, site);
      case DomainKind =>
        MapMembers(DomainsOf(t.domains), DomainId);
        var d :| d in DomainsOf(t.domains) && d.id == id;
        var site := OwnerExists(t, d.siteId);
        DomainHasRow(env, t, site, d);
        DomainRowShape(env, t, site, d);
        row := DomainRowIn(env, t, site)(d);
      case DatabaseKind =>
        MapMembers(DatabasesOf(t.databases), DatabaseId);
        var d :| d in DatabasesOf(t.databases) && d.id == id;
        assert OwnedWithin(t, d);
        var site := OwnerExists(t, d.siteId.value);
        DatabaseHasRow(env, t, site, d);
        DatabaseRowShape(env, t, site, d);
        row := DatabaseRowIn(env, t, site)(d);
    }
  }

  /** Every source has a row and every row has a source; with distinct keys this means exactly one row each. */
  lemma {:induction false} RowsMatchSources(env: Env, t: Tables)
    requires LegacyOk(env, t)
    ensures Distinct(Map(MapRows(env, t), KeyOf))
    ensures forall kind, id :: (kind, id) in Map(MapRows(env, t), KeyOf) <==> HasSource(t, kind, id)
  {
    RowKeysDistinct(env, t);
    var rows := MapRows(env, t);
    MapMembers(rows, KeyOf);
    forall row <- rows ensures HasSource(t, row.kind, row.sourceId) {
      RowHasSource(env, t, row);
    }
    forall kind, id | HasSource(t, kind, id) ensures (kind, id) in Map(rows, KeyOf) {
      var row := SourceHasRow(env, t, kind, id);
    }
  }
}
