/** The table copy of the domain-centric migration, fed by the staging rows: one copy per site, domain and
    database (api/prisma/migrations/z20260731000000_domain_centric_applications/migration.sql:324-392). */
module DomainCentricMigration {
  import opened Common
  import opened Claims
  import opened RuntimeKeys
  import opened LegacySource
  import opened PrimaryDatabase
  import opened SitePlan
  import opened Positions
  import opened LegacyMap
  import opened MapCoverage
  import opened FinalInvariants
  import LegacyPaths

  // --------------------------------------------------------------------- the copy

  /** JOIN map AS m ON m.row_kind = kind AND m.source_id = id; the primary key leaves one match at most. */
  function Find(rows: seq<MapRow>, kind: Kind, id: string): Option<MapRow> {
    if rows == [] then None else if KeyOf(rows[0]) == (kind, id) then Some(rows[0]) else Find(rows[1..], kind, id)
  }

  function CopiedDomain(d: Domain, m: MapRow): FinalDomain {
    FinalDomain(d.id, d.siteId, Some(d.domain), d.isPrimary, d.position, Some(d.aliases), m.payload.preset, m.payload.appStatus,
                m.payload.filesRelPath, m.payload.runtimeKey, m.payload.phpVersion, m.payload.appPort)
  }

  function CopiedDatabase(d: Database, m: MapRow): FinalDatabase {
    FinalDatabase(d.id, d.siteId, m.domainId, m.payload.purpose, d.dbType)
  }

  function KeptSite(s: Site): FinalSite { FinalSite(s.id, s.name, Some(s.rootPath)) }

  /** Inner joins: a domain without site or map row, and a database without map row, are not copied. */
  function DomainCopies(t: Tables, rows: seq<MapRow>): Domain -> seq<FinalDomain> {
    (d: Domain) =>
      var m := Find(rows, DomainKind, d.id);
      if m.Some? && d.siteId in Map(SitesOf(t.sites), SiteId) then [CopiedDomain(d, m.value)] else []
  }

  function DatabaseCopies(rows: seq<MapRow>): Database -> seq<FinalDatabase> {
    (d: Database) => var m := Find(rows, DatabaseKind, d.id); if m.Some? then [CopiedDatabase(d, m.value)] else []
  }

  function Copy(t: Tables, rows: seq<MapRow>): Final {
    Final(Map(SitesOf(t.sites), KeptSite),
          Concat(DomainsOf(t.domains), DomainCopies(t, rows)),
          Concat(DatabasesOf(t.databases), DatabaseCopies(rows)))
  }

  function BaselineOf(t: Tables): Counts { Counts(|t.sites|, |t.domains|, |t.databases|) }

  // ----------------------------------------------------------------- lookups

  lemma {:induction false} FindUnique(rows: seq<MapRow>, row: MapRow)
    requires Distinct(Map(rows, KeyOf)) && row in rows
    ensures Find(rows, row.kind, row.sourceId) == Some(row)
  {
    if rows[0] != row {
      assert Map(rows[1..], KeyOf) == Map(rows, KeyOf)[1..];
      var i :| 0 <= i < |rows| && rows[i] == row;
      assert Map(rows, KeyOf)[0] != Map(rows, KeyOf)[i];
      assert rows[1..][i - 1] == row;
      FindUnique(rows[1..], row);
    }
  }

  /** The site a domain or database belongs to. */
  ghost function OwnerOf(t: Tables, siteId: string): Site
    requires siteId in Map(SitesOf(t.sites), SiteId)
    ensures OwnerIs(t, OwnerOf(t, siteId), siteId)
  {
    MapMembers(SitesOf(t.sites), SiteId);
    var site :| site in SitesOf(t.sites) && site.id == siteId;
    site
  }

  lemma {:induction false} SiteOfDomain(env: Env, t: Tables, d: Domain) returns (site: Site)
    requires LegacyOk(env, t) && d in DomainsOf(t.domains)
    ensures OwnerIs(t, site, d.siteId) && SitePasses(env, t, site) && d in DomainsFor(env, t, site)
  {
    site := OwnerOf(t, d.siteId);
    MappableSite(env, t, site);
    OwnDomain(env, t, site, d);
  }

  lemma {:induction false} SiteOfDatabase(env: Env, t: Tables, d: Database) returns (site: Site)
    requires LegacyOk(env, t) && d in DatabasesOf(t.databases)
    ensures d.siteId == Some(site.id) && OwnerIs(t, site, site.id) && SitePasses(env, t, site) && d in DatabasesFor(t, site)
  {
    assert OwnedWithin(t, d);
    site := OwnerOf(t, d.siteId.value);
    MappableSite(env, t, site);
    OwnDatabase(t, site, d);
  }

  /** What the copy makes of one domain and one database of a mappable installation. */
  ghost predicate CopiedAs(env: Env, t: Tables, site: Site, d: Domain, copy: FinalDomain) {
    OwnerIs(t, site, d.siteId) && SitePasses(env, t, site) && d in DomainsFor(env, t, site)
    && copy == CopiedDomain(d, DomainRowIn(env, t, site)(d))
  }

  lemma {:induction false} DomainIsCopied(env: Env, t: Tables, d: Domain) returns (site: Site, copy: FinalDomain)
    requires LegacyOk(env, t) && d in DomainsOf(t.domains)
    ensures CopiedAs(env, t, site, d, copy) && DomainCopies(t, MapRows(env, t))(d) == [copy]
  {
    site := SiteOfDomain(env, t, d);
    DomainHasRow(env, t, site, d);
    DomainRowShape(env, t, site, d);
    RowKeysDistinct(env, t);
    FindUnique(MapRows(env, t), DomainRowIn(env, t, site)(d));
    copy := CopiedDomain(d, DomainRowIn(env, t, site)(d));
  }

  lemma {:induction false} DatabaseIsCopied(env: Env, t: Tables, d: Database) returns (site: Site, copy: FinalDatabase)
    requires LegacyOk(env, t) && d in DatabasesOf(t.databases)
    ensures d.siteId == Some(site.id) && OwnerIs(t, site, site.id) && SitePasses(env, t, site) && d in DatabasesFor(t, site)
    ensures copy == CopiedDatabase(d, DatabaseRowIn(env, t, site)(d)) && DatabaseCopies(MapRows(env, t))(d) == [copy]
  {
    site := SiteOfDatabase(env, t, d);
    DatabaseHasRow(env, t, site, d);
    DatabaseRowShape(env, t, site, d);
    RowKeysDistinct(env, t);
    FindUnique(MapRows(env, t), DatabaseRowIn(env, t, site)(d));
    copy := CopiedDatabase(d, DatabaseRowIn(env, t, site)(d));
  }

  // --------------------------------------------------- one copy per record, in order

  ghost predicate OneEach<S, T>(s: seq<S>, f: S -> seq<T>) { forall x <- s :: |f(x)| == 1 }

  lemma {:induction false} ConcatSingles<S, T>(s: seq<S>, f: S -> seq<T>)
    requires OneEach(s, f)
    ensures |Concat(s, f)| == |s| && forall i | 0 <= i < |s| :: [Concat(s, f)[i]] == f(s[i])
  {
    if s != [] {
      var most, last := s[..|s| - 1], s[|s| - 1];
      ConcatSingles(most, f);
      assert |f(last)| == 1 && f(last) == [f(last)[0]];
    }
  }

  lemma {:induction false} AllDomainsCopied(env: Env, t: Tables)
    requires LegacyOk(env, t)
    ensures OneEach(DomainsOf(t.domains), DomainCopies(t, MapRows(env, t)))
  {
    forall d <- DomainsOf(t.domains) ensures |DomainCopies(t, MapRows(env, t))(d)| == 1 {
      var site, copy := DomainIsCopied(env, t, d);
    }
  }

  lemma {:induction false} AllDatabasesCopied(env: Env, t: Tables)
    requires LegacyOk(env, t)
    ensures OneEach(DatabasesOf(t.databases), DatabaseCopies(MapRows(env, t)))
  {
    forall d <- DatabasesOf(t.databases) ensures |DatabaseCopies(MapRows(env, t))(d)| == 1 {
      var site, copy := DatabaseIsCopied(env, t, d);
    }
  }

  /** Nothing is lost or invented: the protected row counts survive the copy. */
  lemma {:induction false} CountsSurvive(env: Env, t: Tables)
    requires LegacyOk(env, t)
    ensures CountsKept(Copy(t, MapRows(env, t)), BaselineOf(t))
  {
    AllDomainsCopied(env, t);
    AllDatabasesCopied(env, t);
    ConcatSingles(DomainsOf(t.domains), DomainCopies(t, MapRows(env, t)));
    ConcatSingles(DatabasesOf(t.databases), DatabaseCopies(MapRows(env, t)));
    FilterAll(t.sites, SiteComplete);
    FilterAll(t.domains, DomainComplete);
    FilterAll(t.databases, DatabaseComplete);
  }
}
