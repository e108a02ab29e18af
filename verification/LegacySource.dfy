/** Reading the legacy tables: the three row loops at the start of buildLegacyMigrationMap and the host name
    registry they feed (migrations/release/mapper.ts:171-191, 464-483, 552-645; validation.ts:92-114). */
module LegacySource {
  import opened Common
  import opened Claims
  import opened RuntimeKeys

  type Text = Option<string>

  /** A nullable SQLite number, with what Number.isInteger says about it. */
  datatype Num = NoNumber | Whole(n: int) | Fraction

  datatype RawSite = RawSite(id: Text, name: Text, preset: Text, status: Text, errorMessage: Text, rootPath: Text,
                             filesRelPath: Text, appPort: Num, phpVersion: Text, phpPoolCustom: Text)
  datatype RawDomain = RawDomain(id: Text, siteId: Text, domain: Text, isPrimary: Option<bool>, position: Num,
                                 aliases: Text, filesRelPath: Text, appPort: Num)
  datatype RawDatabase = RawDatabase(id: Text, siteId: Text, name: Text, dbType: Text, dbUser: Text,
                                     siteDomainId: Text, purpose: Text)

  datatype Site = Site(id: string, name: string, preset: string, status: string, errorMessage: Text,
                       rootPath: string, filesRelPath: Text, appPort: Num, phpVersion: Text, phpPoolCustom: Text)
  datatype Domain = Domain(id: string, siteId: string, domain: string, isPrimary: bool, position: int,
                           aliases: string, filesRelPath: Text, appPort: Num)
  datatype Database = Database(id: string, siteId: Text, name: string, dbType: string, dbUser: Text,
                               siteDomainId: Text, purpose: Text)

  /** What was observed about one domain's running configuration. */
  datatype Evidence = Evidence(phpEnabled: Option<bool>, modxDatabaseName: Text, poolMaxChildren: Num)

  /** Everything the mapper takes from outside: the two validators it calls on host names and alias texts,
      the hash, localeCompare as a strict order, the credential patterns, evidence and socket settings. */
  datatype Env = Env(hostname: string -> Text, aliasItems: string -> Option<seq<Text>>, hashHex: string -> string,
                     less: (string, string) -> bool, suspicious: string -> bool, evidence: map<string, Evidence>,
                     socketDirectory: string, socketMaxBytes: nat)

  datatype Blocker =
    | SiteRowInvalid | SiteDuplicate | PresetInvalid | PrimaryKeyInvalid | SitePortInvalid
    | DomainRowInvalid | DomainDuplicate | HostnameInvalid | AliasesInvalid | HostnameConflict | DomainPortInvalid
    | DatabaseRowInvalid | DatabaseDuplicate | DomainSiteNotFound
    | DatabaseSiteMissing | DatabaseSiteNotFound | DatabaseDomainMismatch
    | PoolCustomUnsafe | ErrorMessageUnsafe | SiteWithoutDomain | PrimaryDomainInvalid | PositionInvalid
    | PathMissing | PathInvalid | PathEscapesRoot | RuntimeKeyCollision | PrimaryDatabaseAmbiguous
    | ModxPhpMissing | ModxDatabaseUnresolved | SecondaryPhpEvidenceRequired
    | PoolBudgetEvidenceRequired | PoolBudgetTooSmall | RuntimeKeyInvalid | ChangedDuringMapping

  // --------------------------------------------------------------------- rows

  predicate Given(value: Text) { value.Some? && value.value != "" }

  function OrEmpty(value: Text): string { if value.Some? then value.value else "" }

  predicate KnownPreset(preset: string) { preset == "MODX_REVO" || preset == "MODX_3" || preset == "CUSTOM" }

  predicate IsModxPreset(preset: string) { preset == "MODX_REVO" || preset == "MODX_3" }

  predicate ValidPort(port: Num) { port.NoNumber? || (port.Whole? && 1 <= port.n <= 65535) }

  /** A key that may name a pool: safe, and short enough when there is a PHP version to serve. */
  predicate KeyFits(env: Env, key: string, phpVersion: Text) {
    IsSafeRuntimeKey(key)
    && (phpVersion.Some? ==> SocketPathWithinLimit(key, env.socketDirectory, env.socketMaxBytes, phpVersion.value))
  }

  predicate SiteComplete(row: RawSite) {
    Given(row.id) && Given(row.name) && Given(row.preset) && Given(row.status) && Given(row.rootPath)
  }

  function SiteOf(row: RawSite): Site {
    Site(OrEmpty(row.id), OrEmpty(row.name), OrEmpty(row.preset), OrEmpty(row.status), row.errorMessage,
         OrEmpty(row.rootPath), row.filesRelPath, row.appPort, row.phpVersion, row.phpPoolCustom)
  }

  predicate SiteFits(env: Env, site: Site) {
    KnownPreset(site.preset) && KeyFits(env, site.name, site.phpVersion) && ValidPort(site.appPort)
  }

  predicate DomainComplete(row: RawDomain) {
    Given(row.id) && Given(row.siteId) && Given(row.domain) && row.aliases.Some? && row.isPrimary.Some? && row.position.Whole?
  }

  function DomainOf(row: RawDomain): Domain {
    Domain(OrEmpty(row.id), OrEmpty(row.siteId), OrEmpty(row.domain), row.isPrimary == Some(true),
           if row.position.Whole? then row.position.n else 0, OrEmpty(row.aliases), row.filesRelPath, row.appPort)
  }

  predicate DatabaseComplete(row: RawDatabase) { Given(row.id) && Given(row.name) && Given(row.dbType) }

  function DatabaseOf(row: RawDatabase): Database {
    Database(OrEmpty(row.id), row.siteId, OrEmpty(row.name), OrEmpty(row.dbType), row.dbUser, row.siteDomainId, row.purpose)
  }

  /** The records that take part in the mapping, in row order. */
  function Records<R, T>(rows: seq<R>, complete: R -> bool, record: R -> T): seq<T> {
    Map(Filter(rows, complete), record)
  }

  function SitesOf(rows: seq<RawSite>): seq<Site> { Records(rows, SiteComplete, SiteOf) }
  function DomainsOf(rows: seq<RawDomain>): seq<Domain> { Records(rows, DomainComplete, DomainOf) }
  function DatabasesOf(rows: seq<RawDatabase>): seq<Database> { Records(rows, DatabaseComplete, DatabaseOf) }

  function SiteId(s: Site): string { s.id }
  function DomainId(d: Domain): string { d.id }
  function DatabaseId(d: Database): string { d.id }

  // --------------------------------------------------------------- host names

  /** All alias host names of a domain, or None when one item is unusable. */
  function AliasNames(env: Env, items: seq<Text>): Option<seq<string>> {
    if items == [] then Some([])
    else
      var front, last := AliasNames(env, items[..|items| - 1]), items[|items| - 1];
      if front.Some? && last.Some? && env.hostname(last.value).Some?
      then Some(front.value + [env.hostname(last.value).value]) else None
  }

  function Aliases(env: Env, raw: string): Option<seq<string>> {
    var items := env.aliasItems(raw);
    if items == None then None else AliasNames(env, items.value)
  }

  method ParseAliases(env: Env, raw: string) returns (names: Option<seq<string>>)
    ensures names == Aliases(env, raw)
  {
    if env.aliasItems(raw) == None { return None; }
    var items := env.aliasItems(raw).value;
    var hostnames := [];
    for i := 0 to |items|
      invariant AliasNames(env, items[..i]) == Some(hostnames)
    {
      assert items[..i + 1][..i] == items[..i];
      if items[i] == None || env.hostname(items[i].value) == None {
        UnusableAlias(env, items, i);
        return None;
      }
      hostnames := hostnames + [env.hostname(items[i].value).value];
    }
    assert items[..|items|] == items;
    names := Some(hostnames);
  }

  lemma {:induction false} UnusableAlias(env: Env, items: seq<Text>, k: nat)
    requires k < |items| && (items[k] == None || env.hostname(items[k].value) == None)
    ensures AliasNames(env, items) == None
  {
    if k < |items| - 1 {
      UnusableAlias(env, items[..|items| - 1], k);
    }
  }

  predicate NamesUsable(env: Env, domain: string, aliases: string) {
    env.hostname(domain).Some? && Aliases(env, aliases).Some?
  }

  /** [canonical, ...aliases], each claimed for the domain. */
  function NameClaims(env: Env, id: string, domain: string, aliases: string): seq<Claim> {
    if NamesUsable(env, domain, aliases) then
      Map([env.hostname(domain).value] + Aliases(env, aliases).value, (name: string) => Claim(name, id, false))
    else []
  }

  function HostClaims(env: Env): Domain -> seq<Claim> {
    (d: Domain) => NameClaims(env, d.id, d.domain, d.aliases)
  }

  function Copies(n: nat, b: Blocker): (r: seq<Blocker>)
    ensures |r| == n
  {
    seq(n, _ => b)
  }

  /** addHostnameClaims, and the body of the checker's host name loop. */
  method AddHostnameClaims(env: Env, id: string, domain: string, aliases: string,
                           owners: map<string, string>, ghost earlier: seq<Claim>)
    returns (after: map<string, string>, blockers: seq<Blocker>)
    requires Registered(owners, earlier)
    ensures Registered(after, earlier + NameClaims(env, id, domain, aliases))
    ensures Compatible(earlier + NameClaims(env, id, domain, aliases)) && NamesUsable(env, domain, aliases)
       <==> Compatible(earlier) && blockers == []
  {
    if env.hostname(domain) == None {
      NoMore(earlier);
      return owners, [HostnameInvalid];
    }
    var names := ParseAliases(env, aliases);
    if names == None {
      NoMore(earlier);
      return owners, [AliasesInvalid];
    }
    var conflicts;
    after, conflicts := Register(owners, earlier, NameClaims(env, id, domain, aliases));
    blockers := Copies(conflicts, HostnameConflict);
  }

  // --------------------------------------------------------------- reading loops

  /** A table passes: complete rows, no identifier twice, every record usable. */
  ghost predicate Readable<R, T>(rows: seq<R>, complete: R -> bool, record: R -> T, id: T -> string, fits: T -> bool) {
    && All(rows, complete)
    && Distinct(Map(Records(rows, complete, record), id))
    && All(Records(rows, complete, record), fits)
  }

  lemma {:induction false} OneMoreRow<R, T>(rows: seq<R>, i: nat, complete: R -> bool, record: R -> T)
    requires i < |rows|
    ensures Records(rows[..i + 1], complete, record)
         == Records(rows[..i], complete, record) + if complete(rows[i]) then [record(rows[i])] else []
  {
    NextPrefix(rows, i);
    FilterAppend(rows[..i], [rows[i]], complete);
    MapAppend(Filter(rows[..i], complete), Filter([rows[i]], complete), record);
  }

  /** Adding a record to a table of distinct, usable records. */
  lemma {:induction false} RecordsStep<T>(before: seq<T>, r: T, id: T -> string, fits: T -> bool)
    ensures Distinct(Map(before + [r], id)) <==> Distinct(Map(before, id)) && id(r) !in Map(before, id)
    ensures All(before + [r], fits) <==> All(before, fits) && fits(r)
  {
    MapOne(before, r, id);
    DistinctGrows(Map(before, id), id(r));
    AllGrows(before, r, fits);
  }

  /** How one more row changes whether the table passes. */
  lemma {:induction false} ReadableStep<R, T>(rows: seq<R>, i: nat, complete: R -> bool, record: R -> T, id: T -> string, fits: T -> bool)
    requires i < |rows|
    ensures Readable(rows[..i + 1], complete, record, id, fits) <==>
              Readable(rows[..i], complete, record, id, fits) && complete(rows[i])
              && id(record(rows[i])) !in Map(Records(rows[..i], complete, record), id) && fits(record(rows[i]))
  {
    OneMoreRow(rows, i, complete, record);
    NextPrefix(rows, i);
    AllGrows(rows[..i], rows[i], complete);
    RecordsStep(Records(rows[..i], complete, record), record(rows[i]), id, fits);
  }

  /** The identifiers seen so far, as the loops keep them in a Set. */
  lemma {:induction false} SeenIds<R, T>(rows: seq<R>, i: nat, complete: R -> bool, record: R -> T, id: T -> string)
    requires i < |rows| && complete(rows[i])
    ensures Elements(Map(Records(rows[..i + 1], complete, record), id))
         == Elements(Map(Records(rows[..i], complete, record), id)) + {id(record(rows[i]))}
  {
    OneMoreRow(rows, i, complete, record);
    MapOne(Records(rows[..i], complete, record), record(rows[i]), id);
  }

  function SiteFitsIn(env: Env): Site -> bool { s => SiteFits(env, s) }

  ghost predicate SitesReadable(env: Env, rows: seq<RawSite>) {
    Readable(rows, SiteComplete, SiteOf, SiteId, SiteFitsIn(env))
  }

  method ReadSites(env: Env, rows: seq<RawSite>) returns (sites: seq<Site>, siteIds: set<string>, blockers: seq<Blocker>)
    ensures sites == SitesOf(rows) && siteIds == Elements(Map(sites, SiteId))
    ensures blockers == [] <==> SitesReadable(env, rows)
  {
    sites, siteIds, blockers := [], {}, [];
    for i := 0 to |rows|
      invariant sites == SitesOf(rows[..i]) && siteIds == Elements(Map(sites, SiteId))
      invariant blockers == [] <==> SitesReadable(env, rows[..i])
    {
      ReadableStep(rows, i, SiteComplete, SiteOf, SiteId, SiteFitsIn(env));
      OneMoreRow(rows, i, SiteComplete, SiteOf);
      if !SiteComplete(rows[i]) {
        blockers := blockers + [SiteRowInvalid];
      } else {
        SeenIds(rows, i, SiteComplete, SiteOf, SiteId);
        var site := SiteOf(rows[i]);
        if site.id in siteIds { blockers := blockers + [SiteDuplicate]; }
        siteIds := siteIds + {site.id};
        blockers := blockers + SiteBlockers(env, site);
        sites := sites + [site];
      }
    }
    WholePrefix(rows);
  }

  /** The three value checks on one site, in the order the loop makes them. */
  function SiteBlockers(env: Env, site: Site): (blockers: seq<Blocker>)
    ensures blockers == [] <==> SiteFits(env, site)
  {
    (if KnownPreset(site.preset) then [] else [PresetInvalid])
    + (if KeyFits(env, site.name, site.phpVersion) then [] else [PrimaryKeyInvalid])
    + (if ValidPort(site.appPort) then [] else [SitePortInvalid])
  }

  predicate DomainFits(env: Env, d: Domain) { NamesUsable(env, d.domain, d.aliases) && ValidPort(d.appPort) }

  function DomainFitsIn(env: Env): Domain -> bool { d => DomainFits(env, d) }

  /** The domain table passes on its own: readable, and no host name is claimed by two domains. */
  ghost predicate DomainsReadable(env: Env, rows: seq<RawDomain>) {
    Readable(rows, DomainComplete, DomainOf, DomainId, DomainFitsIn(env)) && Compatible(Concat(DomainsOf(rows), HostClaims(env)))
  }

  method ReadDomains(env: Env, rows: seq<RawDomain>) returns (domains: seq<Domain>, blockers: seq<Blocker>)
    ensures domains == DomainsOf(rows)
    ensures blockers == [] <==> DomainsReadable(env, rows)
  {
    domains, blockers := [], [];
    var domainIds: set<string>, hostClaims: map<string, string> := {}, map[];
    for i := 0 to |rows|
      invariant domains == DomainsOf(rows[..i]) && domainIds == Elements(Map(domains, DomainId))
      invariant Registered(hostClaims, Concat(domains, HostClaims(env)))
      invariant blockers == [] <==> DomainsReadable(env, rows[..i])
    {
      ReadableStep(rows, i, DomainComplete, DomainOf, DomainId, DomainFitsIn(env));
      OneMoreRow(rows, i, DomainComplete, DomainOf);
      if !DomainComplete(rows[i]) {
        blockers := blockers + [DomainRowInvalid];
      } else {
        SeenIds(rows, i, DomainComplete, DomainOf, DomainId);
        var d := DomainOf(rows[i]);
        ConcatOne(domains, d, HostClaims(env));
        if d.id in domainIds { blockers := blockers + [DomainDuplicate]; }
        domainIds := domainIds + {d.id};
        var found;
        hostClaims, found := AddHostnameClaims(env, d.id, d.domain, d.aliases, hostClaims, Concat(domains, HostClaims(env)));
        domains := domains + [d];
        blockers := blockers + found + if ValidPort(d.appPort) then [] else [DomainPortInvalid];
      }
    }
    WholePrefix(rows);
  }

  predicate Always(d: Database) { true }

  ghost predicate DatabasesReadable(rows: seq<RawDatabase>) {
    Readable(rows, DatabaseComplete, DatabaseOf, DatabaseId, Always)
  }

  method ReadDatabases(rows: seq<RawDatabase>) returns (databases: seq<Database>, blockers: seq<Blocker>)
    ensures databases == DatabasesOf(rows)
    ensures blockers == [] <==> DatabasesReadable(rows)
  {
    databases, blockers := [], [];
    var databaseIds: set<string> := {};
    for i := 0 to |rows|
      invariant databases == DatabasesOf(rows[..i]) && databaseIds == Elements(Map(databases, DatabaseId))
      invariant blockers == [] <==> DatabasesReadable(rows[..i])
    {
      ReadableStep(rows, i, DatabaseComplete, DatabaseOf, DatabaseId, Always);
      OneMoreRow(rows, i, DatabaseComplete, DatabaseOf);
      if !DatabaseComplete(rows[i]) {
        blockers := blockers + [DatabaseRowInvalid];
      } else {
        SeenIds(rows, i, DatabaseComplete, DatabaseOf, DatabaseId);
        var d := DatabaseOf(rows[i]);
        if d.id in databaseIds { blockers := blockers + [DatabaseDuplicate]; }
        databaseIds := databaseIds + {d.id};
        databases := databases + [d];
      }
    }
    WholePrefix(rows);
  }

  // ------------------------------------------------------------------ ownership

  function OnSite(siteId: string): Domain -> bool { (d: Domain) => d.siteId == siteId }
  function ForSite(siteId: string): Database -> bool { (d: Database) => d.siteId == Some(siteId) }
  function SiteKnown(siteIds: set<string>): Domain -> bool { (d: Domain) => d.siteId in siteIds }

  /** map.get(key) ?? [] */
  function ListAt<T>(lists: map<string, seq<T>>, key: string): seq<T> {
    if key in lists then lists[key] else []
  }

  /** `lists` holds, for every relevant key, the items of that key in their order. */
  ghost predicate Grouped<T>(lists: map<string, seq<T>>, items: seq<T>, at: string -> T -> bool, relevant: set<string>) {
    forall k <- relevant :: ListAt(lists, k) == Filter(items, at(k))
  }

  function Added<T>(lists: map<string, seq<T>>, x: T, key: string): map<string, seq<T>> {
    lists[key := ListAt(lists, key) + [x]]
  }

  lemma {:induction false} GroupStep<T>(lists: map<string, seq<T>>, items: seq<T>, x: T, at: string -> T -> bool, relevant: set<string>, to: Text)
    requires Grouped(lists, items, at, relevant)
    requires forall k <- relevant :: at(k)(x) <==> to == Some(k)
    ensures Grouped(if to.Some? then Added(lists, x, to.value) else lists, items + [x], at, relevant)
  {
    forall k <- relevant ensures Filter(items + [x], at(k)) == Filter(items, at(k)) + if to == Some(k) then [x] else [] {
      FilterAppend(items, [x], at(k));
    }
  }

  method GroupDomains(siteIds: set<string>, domains: seq<Domain>)
    returns (bySite: map<string, seq<Domain>>, byId: map<string, Domain>, blockers: seq<Blocker>)
    ensures Grouped(bySite, domains, OnSite, siteIds)
    ensures IndexesIds(byId, domains)
    ensures blockers == [] <==> All(domains, SiteKnown(siteIds))
  {
    bySite, byId, blockers := map[], map[], [];
    for i := 0 to |domains|
      invariant Grouped(bySite, domains[..i], OnSite, siteIds)
      invariant IndexesIds(byId, domains[..i])
      invariant blockers == [] <==> All(domains[..i], SiteKnown(siteIds))
    {
      var d := domains[i];
      NextPrefix(domains, i);
      GroupStep(bySite, domains[..i], d, OnSite, siteIds, Some(d.siteId));
      IndexStep(byId, domains[..i], d);
      AllGrows(domains[..i], d, SiteKnown(siteIds));
      bySite := Added(bySite, d, d.siteId);
      byId := byId[d.id := d];
      if d.siteId !in siteIds { blockers := blockers + [DomainSiteNotFound]; }
    }
    WholePrefix(domains);
  }

  ghost predicate IndexesIds(byId: map<string, Domain>, domains: seq<Domain>) {
    && (forall d <- domains :: d.id in byId)
    && (forall k <- byId :: byId[k] in domains && byId[k].id == k)
  }

  lemma {:induction false} IndexStep(byId: map<string, Domain>, domains: seq<Domain>, d: Domain)
    requires IndexesIds(byId, domains)
    ensures IndexesIds(byId[d.id := d], domains + [d])
  {
  }

  /** A database belongs to a known site, and its domain, if it names one, to the same site. */
  predicate RefersWithin(siteIds: set<string>, byId: map<string, Domain>, d: Database) {
    d.siteId.Some? && d.siteId.value in siteIds
    && (d.siteDomainId.Some? ==> d.siteDomainId.value in byId && byId[d.siteDomainId.value].siteId == d.siteId.value)
  }

  function WithinIn(siteIds: set<string>, byId: map<string, Domain>): Database -> bool {
    d => RefersWithin(siteIds, byId, d)
  }

  function KnownOwner(siteIds: set<string>, d: Database): Text {
    if d.siteId.Some? && d.siteId.value in siteIds then d.siteId else None
  }

  function ReferenceBlockers(siteIds: set<string>, byId: map<string, Domain>, d: Database): (blockers: seq<Blocker>)
    ensures blockers == [] <==> RefersWithin(siteIds, byId, d)
  {
    if d.siteId == None then [DatabaseSiteMissing]
    else if d.siteId.value !in siteIds then [DatabaseSiteNotFound]
    else if d.siteDomainId.Some? && (d.siteDomainId.value !in byId || byId[d.siteDomainId.value].siteId != d.siteId.value)
    then [DatabaseDomainMismatch]
    else []
  }

  method GroupDatabases(siteIds: set<string>, byId: map<string, Domain>, databases: seq<Database>)
    returns (bySite: map<string, seq<Database>>, blockers: seq<Blocker>)
    ensures Grouped(bySite, databases, ForSite, siteIds)
    ensures blockers == [] <==> All(databases, WithinIn(siteIds, byId))
  {
    bySite, blockers := map[], [];
    for i := 0 to |databases|
      invariant Grouped(bySite, databases[..i], ForSite, siteIds)
      invariant blockers == [] <==> All(databases[..i], WithinIn(siteIds, byId))
    {
      var d := databases[i];
      NextPrefix(databases, i);
      GroupStep(bySite, databases[..i], d, ForSite, siteIds, KnownOwner(siteIds, d));
      AllGrows(databases[..i], d, WithinIn(siteIds, byId));
      if KnownOwner(siteIds, d).Some? {
        bySite := Added(bySite, d, d.siteId.value);
      }
      blockers := blockers + ReferenceBlockers(siteIds, byId, d);
    }
    WholePrefix(databases);
  }
}
