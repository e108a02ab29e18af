/** What a migrated record contains, field by field and in terms of the legacy tables alone
    (migrations/release/mapper.ts:293-298, 771-889; migration.sql:324-392). */
module RecordContents {
  import opened Common
  import opened LegacySource
  import opened PrimaryDatabase
  import opened SitePlan
  import opened LegacyMap
  import opened MapCoverage
  import opened LegacyPool
  import opened FinalInvariants
  import opened DomainCentricMigration
  import opened MigrationTheorem
  import opened StagedWorkers
  import LegacyPaths

  // ------------------------------------------------------------ what is expected

  /** A site of the installation, its primary domain, and one of its domains. */
  ghost predicate Belongs(t: Tables, site: Site, primary: Domain, d: Domain) {
    && site in SitesOf(t.sites) && primary in DomainsOf(t.domains) && d in DomainsOf(t.domains)
    && primary.isPrimary && primary.siteId == site.id && d.siteId == site.id
  }

  /** A failed application keeps its message; every other status becomes RUNNING. */
  predicate ApplicationState(site: Site, status: Text, message: Text) {
    if site.status == "ERROR" then status == Some("ERROR") && message == site.errorMessage
    else status == Some("RUNNING") && message == None
  }

  /** The path of the domain, or of its site when it has none, in normal form. */
  predicate ServedFrom(site: Site, d: Domain, path: Text) {
    && path.Some?
    && match (d.filesRelPath, site.filesRelPath)
       case (Some(own), _) => LegacyPaths.NormalizeRelativePath(own) == LegacyPaths.Normalized(path.value)
       case (None, Some(shared)) => LegacyPaths.NormalizeRelativePath(shared) == LegacyPaths.Normalized(path.value)
       case _ => false
  }

  /** PHP stays with the primary domain and with every domain it was observed on. */
  predicate HasPhp(env: Env, site: Site, d: Domain) {
    site.phpVersion.Some? && (d.isPrimary || (d.id in env.evidence && env.evidence[d.id].phpEnabled == Some(true)))
  }

  predicate NamedBySiteOrHash(env: Env, site: Site, d: Domain, key: Text) {
    key == Some(if d.isPrimary then site.name
                else "d" + (if |env.hashHex(d.id)| > 20 then env.hashHex(d.id)[..20] else env.hashHex(d.id)))
  }

  /** The operator's own directives, in their order, with one worker limit behind them. */
  predicate PoolKept(site: Site, pool: Text) {
    && pool.Some? && WorkerLimit(pool.value).Some?
    && var read := Effective(pool.value);
       read != [] && read[..|read| - 1] == Filter(Effective(TextOrEmpty(site.phpPoolCustom)), KeptDirective)
  }

  /** The port of the domain; a primary domain without one takes over that of its site. */
  predicate PortTaken(site: Site, d: Domain, port: Num) {
    port == (if d.appPort != NoNumber || !d.isPrimary then d.appPort else site.appPort)
  }

  predicate TellsDomain(env: Env, site: Site, primary: Domain, d: Domain, row: MapRow) {
    && row.siteId == site.id && row.domainId == Some(d.id) && row.databaseId == None
    && row.payload.primaryDomainId == primary.id && row.payload.purpose == None
    && row.payload.preset == Some(if d.isPrimary then site.preset else "CUSTOM")
    && ApplicationState(site, row.payload.appStatus, row.payload.appErrorMessage)
    && ServedFrom(site, d, row.payload.filesRelPath)
    && NamedBySiteOrHash(env, site, d, row.payload.runtimeKey)
    && PortTaken(site, d, row.payload.appPort)
    && (if HasPhp(env, site, d) then row.payload.phpVersion == site.phpVersion && PoolKept(site, row.payload.phpPoolCustom)
        else row.payload.phpVersion == None && row.payload.phpPoolCustom == None)
  }

  // ------------------------------------------------------------------ domain rows

  lemma {:induction false} OnlyPrimary(sorted: seq<Domain>, d: Domain)
    requires OnePrimary(sorted) && d in sorted && d.isPrimary
    ensures PrimaryOf(sorted) == d
  {
    FilterMembers(sorted, Primary);
    assert d in Filter(sorted, Primary);
  }

  lemma {:induction false} PrimaryIsFlagged(env: Env, t: Tables, site: Site, primary: Domain, d: Domain)
    requires LegacyOk(env, t) && SitePasses(env, t, site) && Belongs(t, site, primary, d)
    ensures PrimaryOf(DomainsFor(env, t, site)) == primary && d in DomainsFor(env, t, site)
    ensures d.isPrimary <==> d.id == primary.id
  {
    OwnDomain(env, t, site, primary);
    OwnDomain(env, t, site, d);
    OnlyPrimary(DomainsFor(env, t, site), primary);
    MappableIds(env, t);
    if d.isPrimary {
      OnlyPrimary(DomainsFor(env, t, site), d);
    } else if d.id == primary.id {
      SameIdSameDomain(DomainsOf(t.domains), d, primary);
    }
  }

  lemma {:induction false} PoolOfRow(site: Site, env: Env, n: nat)
    requires PoolPasses(env, site)
    ensures PoolKept(site, Some(PoolText(PoolCustom(site), n)))
  {
    var limit := Directive(MAX_CHILDREN, SqlText.DigitsOf(n));
    AllottedPool(env, site, n);
    if site.phpPoolCustom.Some? {
      StagedPoolDirectives(site.phpPoolCustom.value, n);
    } else {
      StagedPoolText(None, n);
      EffectiveOfNothing();
    }
    DropLast(Filter(Effective(TextOrEmpty(site.phpPoolCustom)), KeptDirective), limit);
  }

  lemma {:induction false} DropLast<T>(s: seq<T>, last: T)
    ensures (s + [last])[..|s + [last]| - 1] == s
  {
  }

  lemma {:induction false} PathIsServed(site: Site, d: Domain)
    requires MappedPath(site, RawPath(site, d)).Some?
    ensures ServedFrom(site, d, MappedPath(site, RawPath(site, d)))
  {
  }

  lemma {:induction false} KeyIsNamed(env: Env, site: Site, primaryId: string, d: Domain)
    requires d.isPrimary <==> d.id == primaryId
    ensures NamedBySiteOrHash(env, site, d, Some(KeyFor(env, site, primaryId, d.id)))
  {
  }

  lemma {:induction false} RowTells(env: Env, site: Site, primary: Domain, d: Domain, workers: nat)
    requires PoolPasses(env, site) && (d.isPrimary <==> d.id == primary.id)
    requires MappedPath(site, RawPath(site, d)).Some?
    ensures TellsDomain(env, site, primary, d, DomainRow(env, site, primary.id, d, workers))
  {
    PoolOfRow(site, env, workers);
    PathIsServed(site, d);
    KeyIsNamed(env, site, primary.id, d);
  }

  /** A mapped installation has, for every domain, exactly one row, and it says of that domain what its
      legacy rows and the observations say. */
  lemma {:induction false} DomainRowContents(env: Env, t: Tables, site: Site, primary: Domain, d: Domain)
    requires LegacyOk(env, t) && Belongs(t, site, primary, d)
    ensures exists row <- MapRows(env, t) :: KeyOf(row) == (DomainKind, d.id)
    ensures forall row <- MapRows(env, t) | KeyOf(row) == (DomainKind, d.id) :: TellsDomain(env, site, primary, d, row)
  {
    MappableSite(env, t, site);
    PrimaryIsFlagged(env, t, site, primary, d);
    DomainHasRow(env, t, site, d);
    DomainRowShape(env, t, site, d);
    var own := DomainRowIn(env, t, site)(d);
    assert DomainMappableIn(env, site, primary.id)(d);
    RowTells(env, site, primary, d, ShareOf(env, primary.id, PhpIds(env, site, primary.id, DomainsFor(env, t, site)), d.id));
    forall row <- MapRows(env, t) | KeyOf(row) == (DomainKind, d.id) ensures row == own {
      SameKeySameRow(env, t, row, own);
    }
  }

  lemma {:induction false} SameKeySameRow(env: Env, t: Tables, a: MapRow, b: MapRow)
    requires LegacyOk(env, t) && a in MapRows(env, t) && b in MapRows(env, t) && KeyOf(a) == KeyOf(b)
    ensures a == b
  {
    RowKeysDistinct(env, t);
    FindUnique(MapRows(env, t), a);
    FindUnique(MapRows(env, t), b);
  }

  // ---------------------------------------------------- database and site rows

  /** The databases of a site, in the order of the table. */
  function OwnDatabases(t: Tables, site: Site): seq<Database> { Filter(DatabasesOf(t.databases), OwnedBy(site)) }

  function OwnedBy(site: Site): Database -> bool { (d: Database) => d.siteId == Some(site.id) }

  predicate TellsDatabase(env: Env, t: Tables, site: Site, primary: Domain, d: Database, row: MapRow) {
    var named := if primary.id in env.evidence then env.evidence[primary.id].modxDatabaseName else None;
    && row.siteId == site.id && row.domainId == Some(primary.id) && row.databaseId == Some(d.id)
    && row.payload.primaryDomainId == primary.id
    && row.payload.purpose
       == Some(if ResolvePrimaryDatabase(site, primary, OwnDatabases(t, site), named) == Chosen(d) then "APP_PRIMARY" else "AUXILIARY")
  }

  lemma {:induction false} SameSelection<T>(s: seq<T>, p: T -> bool, q: T -> bool)
    requires forall x <- s :: p(x) <==> q(x)
    ensures Filter(s, p) == Filter(s, q)
  {
    if s != [] {
      SameSelection(s[1..], p, q);
    }
  }

  lemma {:induction false} OwnAreListed(t: Tables, site: Site)
    ensures OwnDatabases(t, site) == DatabasesFor(t, site)
  {
    SameSelection(DatabasesOf(t.databases), ForSite(site.id), OwnedBy(site));
  }

  lemma {:induction false} DatabaseRowTells(env: Env, t: Tables, site: Site, primary: Domain, d: Database)
    requires IdsDistinct(t) && d in DatabasesFor(t, site)
    ensures TellsDatabase(env, t, site, primary, d,
                          DatabaseRow(site, primary.id, ChoiceFor(env, site, primary, DatabasesFor(t, site)), d))
  {
    OwnAreListed(t, site);
    var choice := ChoiceFor(env, site, primary, DatabasesFor(t, site));
    OwnDatabase(t, site, d);
    if choice.Chosen? && choice.database.id == d.id {
      ChosenIsMysql(site, primary, DatabasesFor(t, site), EvidenceOf(env, primary.id).modxDatabaseName);
      OwnDatabase(t, site, choice.database);
      SameDatabase(DatabasesOf(t.databases), choice.database, d);
    }
  }

  /** A database goes to the primary domain of its site, as the application's own exactly when the resolver
      chose it; the row of the site names that domain. */
  lemma {:induction false} DatabaseRowContents(env: Env, t: Tables, site: Site, primary: Domain, d: Database)
    requires LegacyOk(env, t) && Belongs(t, site, primary, primary)
    requires d in DatabasesOf(t.databases) && d.siteId == Some(site.id)
    ensures exists row <- MapRows(env, t) :: KeyOf(row) == (DatabaseKind, d.id)
    ensures forall row <- MapRows(env, t) | KeyOf(row) == (DatabaseKind, d.id) :: TellsDatabase(env, t, site, primary, d, row)
  {
    MappableSite(env, t, site);
    MappableIds(env, t);
    PrimaryIsFlagged(env, t, site, primary, primary);
    OwnDatabase(t, site, d);
    DatabaseHasRow(env, t, site, d);
    DatabaseRowShape(env, t, site, d);
    DatabaseRowTells(env, t, site, primary, d);
    var own := DatabaseRowIn(env, t, site)(d);
    forall row <- MapRows(env, t) | KeyOf(row) == (DatabaseKind, d.id) ensures row == own {
      SameKeySameRow(env, t, row, own);
    }
  }

  predicate TellsSite(site: Site, primary: Domain, row: MapRow) {
    && row.siteId == site.id && row.domainId == Some(primary.id) && row.databaseId == None
    && row.payload.primaryDomainId == primary.id && row.payload.purpose == None && row.payload.preset == None
    && row.payload.runtimeKey == None && row.payload.phpVersion == None && row.payload.filesRelPath == None
  }

  lemma {:induction false} SiteRowContents(env: Env, t: Tables, site: Site, primary: Domain)
    requires LegacyOk(env, t) && Belongs(t, site, primary, primary)
    ensures exists row <- MapRows(env, t) :: KeyOf(row) == (SiteKind, site.id)
    ensures forall row <- MapRows(env, t) | KeyOf(row) == (SiteKind, site.id) :: TellsSite(site, primary, row)
  {
    MappableSite(env, t, site);
    PrimaryIsFlagged(env, t, site, primary, primary);
    SiteHasRow(env, t, site);
    var own := SiteRowIn(env, t, site);
    assert KeyOf(own) == (SiteKind, site.id);
    forall row <- MapRows(env, t) | KeyOf(row) == (SiteKind, site.id) ensures row == own {
      SameKeySameRow(env, t, row, own);
    }
  }

  // -------------------------------------------------------------- after the copy

  predicate ApplicationOf(env: Env, site: Site, d: Domain, c: FinalDomain) {
    && c.preset == Some(if d.isPrimary then site.preset else "CUSTOM")
    && c.appStatus == Some(if site.status == "ERROR" then "ERROR" else "RUNNING")
    && ServedFrom(site, d, c.filesRelPath) && NamedBySiteOrHash(env, site, d, c.runtimeKey) && PortTaken(site, d, c.appPort)
    && c.phpVersion == (if HasPhp(env, site, d) then site.phpVersion else None)
  }

  /** The i-th migrated domain is the i-th legacy domain: same identity and routing, the application as above. */
  lemma {:induction false} MigratedDomain(env: Env, t: Tables, site: Site, primary: Domain, i: nat)
    requires LegacyOk(env, t) && i < |DomainsOf(t.domains)| && Belongs(t, site, primary, DomainsOf(t.domains)[i])
    ensures |Migrated(env, t).domains| == |DomainsOf(t.domains)|
    ensures var d, c := DomainsOf(t.domains)[i], Migrated(env, t).domains[i];
            && c.id == d.id && c.siteId == d.siteId && c.domain == Some(d.domain) && c.aliases == Some(d.aliases)
            && c.isPrimary == d.isPrimary && c.position == d.position && ApplicationOf(env, site, d, c)
  {
    var d := DomainsOf(t.domains)[i];
    DomainsMirrored(env, t);
    var owner := MirrorFacts(env, t, d);
    MappableIds(env, t);
    SameSite(SitesOf(t.sites), owner, site);
    DomainRowContents(env, t, site, primary, d);
    DomainHasRow(env, t, site, d);
    DomainRowShape(env, t, site, d);
  }

  /** The i-th migrated database is the i-th legacy database, now with the primary domain of its site. */
  lemma {:induction false} MigratedDatabase(env: Env, t: Tables, site: Site, primary: Domain, i: nat)
    requires LegacyOk(env, t) && i < |DatabasesOf(t.databases)| && Belongs(t, site, primary, primary)
    requires DatabasesOf(t.databases)[i].siteId == Some(site.id)
    ensures |Migrated(env, t).databases| == |DatabasesOf(t.databases)|
    ensures var d, c := DatabasesOf(t.databases)[i], Migrated(env, t).databases[i];
            && c.id == d.id && c.siteId == d.siteId && c.dbType == d.dbType && c.siteDomainId == Some(primary.id)
            && exists row <- MapRows(env, t) :: KeyOf(row) == (DatabaseKind, d.id)
                 && TellsDatabase(env, t, site, primary, d, row) && c.purpose == row.payload.purpose
  {
    var d := DatabasesOf(t.databases)[i];
    DatabasesMirrored(env, t);
    var owner, copy := DatabaseIsCopied(env, t, d);
    MappableIds(env, t);
    SameSite(SitesOf(t.sites), owner, site);
    DatabaseRowContents(env, t, site, primary, d);
    DatabaseHasRow(env, t, site, d);
    DatabaseRowShape(env, t, site, d);
  }
}
