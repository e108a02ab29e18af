/** What the legacy mapper decides for one site: its primary domain, PHP capability and worker shares,
    runtime keys, and the staging rows of the site, its domains and its databases
    (migrations/release/mapper.ts:293-298, 425-462, 678-889). */
module SitePlan {
  import opened Common
  import opened Claims
  import opened RuntimeKeys
  import opened LegacySource
  import opened PrimaryDatabase
  import opened Positions
  import LegacyPaths
  import LegacyPool

  datatype Kind = SiteKind | DomainKind | DatabaseKind

  datatype Payload = Payload(primaryDomainId: string, preset: Text, appStatus: Text, appErrorMessage: Text,
                             filesRelPath: Text, phpVersion: Text, phpPoolCustom: Text, runtimeKey: Text,
                             appPort: Num, purpose: Text)

  datatype MapRow = MapRow(kind: Kind, sourceId: string, siteId: string, domainId: Text, databaseId: Text, payload: Payload)

  // ------------------------------------------------------------ copied site facts

  function AppStatus(site: Site): string { if site.status == "ERROR" then "ERROR" else "RUNNING" }

  /** safeAppErrorMessageOrBlock: only the message of a failed application is copied. */
  function AppMessage(site: Site): Text { if AppStatus(site) == "ERROR" then site.errorMessage else None }

  predicate MessagePasses(env: Env, site: Site) {
    var message := AppMessage(site);
    message.Some? ==> |message.value| <= 2000 && '\0' !in message.value && !env.suspicious(message.value)
  }

  predicate PoolPasses(env: Env, site: Site) {
    site.phpPoolCustom.Some? ==>
      LegacyPool.TextPasses(site.phpPoolCustom.value, env.suspicious)
      && LegacyPool.AllLinesPass(LegacyPool.Lines(site.phpPoolCustom.value))
  }

  function PoolCustom(site: Site): Text {
    if site.phpPoolCustom.Some? then LegacyPool.Surviving(site.phpPoolCustom.value) else None
  }

  // ---------------------------------------------------------------------- paths

  /** domain.filesRelPath ?? site.filesRelPath */
  function RawPath(site: Site, d: Domain): Text {
    if d.filesRelPath.Some? then d.filesRelPath else site.filesRelPath
  }

  /** normalizedPathOrBlock */
  function MappedPath(site: Site, raw: Text): Text {
    if raw == None then None
    else match LegacyPaths.NormalizeRelativePath(raw.value)
      case Invalid(_) => None
      case Normalized(path) => if LegacyPaths.IsRelativePathContained(site.rootPath, path) then Some(path) else None
  }

  function PathBlockers(site: Site, raw: Text): (blockers: seq<Blocker>)
    ensures blockers == [] <==> MappedPath(site, raw).Some?
  {
    if raw == None then [PathMissing]
    else match LegacyPaths.NormalizeRelativePath(raw.value)
      case Invalid(_) => [PathInvalid]
      case Normalized(path) => if LegacyPaths.IsRelativePathContained(site.rootPath, path) then [] else [PathEscapesRoot]
  }

  // --------------------------------------------------------------- domain order

  function ByPosition(less: (string, string) -> bool): (Domain, Domain) -> bool {
    (l: Domain, r: Domain) => l.position < r.position || (l.position == r.position && less(l.id, r.id))
  }

  function ById(less: (string, string) -> bool): (Database, Database) -> bool {
    (l: Database, r: Database) => less(l.id, r.id)
  }

  function SortedDomains(env: Env, domains: seq<Domain>): seq<Domain> { Sort(domains, ByPosition(env.less)) }
  function SortedDatabases(env: Env, databases: seq<Database>): seq<Database> { Sort(databases, ById(env.less)) }

  predicate Primary(d: Domain) { d.isPrimary }
  function PositionOf(d: Domain): int { d.position }

  predicate OnePrimary(sorted: seq<Domain>) { |Filter(sorted, Primary)| == 1 }

  function PrimaryOf(sorted: seq<Domain>): Domain
    requires OnePrimary(sorted)
  {
    Filter(sorted, Primary)[0]
  }

  predicate PositionsPass(sorted: seq<Domain>)
    requires OnePrimary(sorted)
  {
    PrimaryOf(sorted).position == 0 && Enumerates(Map(sorted, PositionOf))
  }

  // ------------------------------------------------------------------------ PHP

  function EvidenceOf(env: Env, id: string): Evidence {
    if id in env.evidence then env.evidence[id] else Evidence(None, None, NoNumber)
  }

  predicate PhpEnabled(env: Env, site: Site, primaryId: string, id: string) {
    site.phpVersion.Some? && (id == primaryId || EvidenceOf(env, id).phpEnabled == Some(true))
  }

  /** A secondary domain's PHP capability must have been observed. */
  predicate PhpObserved(env: Env, site: Site, primaryId: string, id: string) {
    id == primaryId || site.phpVersion == None || EvidenceOf(env, id).phpEnabled.Some?
  }

  function PhpObservedIn(env: Env, site: Site, primaryId: string): Domain -> bool {
    (d: Domain) => PhpObserved(env, site, primaryId, d.id)
  }

  function PhpOn(env: Env, site: Site, primaryId: string): Domain -> bool {
    (d: Domain) => PhpEnabled(env, site, primaryId, d.id)
  }

  function PhpIds(env: Env, site: Site, primaryId: string, sorted: seq<Domain>): seq<string> {
    Map(Filter(sorted, PhpOn(env, site, primaryId)), DomainId)
  }

  /** What phpEnabledByDomain holds after its loop. */
  ghost predicate Reflects(enabled: map<string, bool>, env: Env, site: Site, primaryId: string, domains: seq<Domain>) {
    forall d <- domains :: d.id in enabled && enabled[d.id] == PhpEnabled(env, site, primaryId, d.id)
  }

  method ObservePhp(env: Env, site: Site, primaryId: string, sorted: seq<Domain>)
    returns (enabled: map<string, bool>, blockers: seq<Blocker>)
    ensures Reflects(enabled, env, site, primaryId, sorted)
    ensures blockers == [] <==> All(sorted, PhpObservedIn(env, site, primaryId))
  {
    enabled, blockers := map[], [];
    for i := 0 to |sorted|
      invariant Reflects(enabled, env, site, primaryId, sorted[..i])
      invariant blockers == [] <==> All(sorted[..i], PhpObservedIn(env, site, primaryId))
    {
      var d := sorted[i];
      NextPrefix(sorted, i);
      AllGrows(sorted[..i], d, PhpObservedIn(env, site, primaryId));
      if d.id == primaryId {
        enabled := enabled[d.id := site.phpVersion.Some?];
      } else if site.phpVersion == None {
        enabled := enabled[d.id := false];
      } else if EvidenceOf(env, d.id).phpEnabled == None {
        blockers := blockers + [SecondaryPhpEvidenceRequired];
        enabled := enabled[d.id := false];
      } else {
        enabled := enabled[d.id := EvidenceOf(env, d.id).phpEnabled.value];
      }
    }
    WholePrefix(sorted);
  }

  // -------------------------------------------------------------------- workers

  predicate BudgetCovers(env: Env, primaryId: string, count: nat) {
    count > 0 ==>
      EvidenceOf(env, primaryId).poolMaxChildren.Whole? && EvidenceOf(env, primaryId).poolMaxChildren.n >= count
  }

  function IndexOf(ids: seq<string>, id: string): (i: nat)
    ensures i <= |ids| && (id in ids ==> i < |ids| && ids[i] == id)
  {
    if ids == [] || ids[0] == id then 0 else 1 + IndexOf(ids[1..], id)
  }

  /** The share of one PHP domain, by its place among the site's PHP domains. */
  function ShareOf(env: Env, primaryId: string, ids: seq<string>, id: string): nat
    requires BudgetCovers(env, primaryId, |ids|)
  {
    if ids == [] then 1 else LegacyPool.Share(EvidenceOf(env, primaryId).poolMaxChildren.n, |ids|, IndexOf(ids, id))
  }

  /** poolAllocations.get(id) ?? 1 */
  function Allotted(allocations: map<string, nat>, id: string): nat {
    if id in allocations then allocations[id] else 1
  }

  /** The allocation map holds every PHP domain's share. */
  ghost predicate AllotsShares(env: Env, primaryId: string, ids: seq<string>, allocations: map<string, nat>) {
    BudgetCovers(env, primaryId, |ids|) && forall id <- ids :: Allotted(allocations, id) == ShareOf(env, primaryId, ids, id)
  }

  method AllocateWorkers(env: Env, primaryId: string, ids: seq<string>)
    returns (allocations: map<string, nat>, blockers: seq<Blocker>)
    ensures blockers == [] <==> BudgetCovers(env, primaryId, |ids|)
    ensures blockers == [] && Distinct(ids) ==> AllotsShares(env, primaryId, ids, allocations)
  {
    allocations, blockers := map[], [];
    if ids != [] {
      var budget := EvidenceOf(env, primaryId).poolMaxChildren;
      if !budget.Whole? {
        blockers := [PoolBudgetEvidenceRequired];
      } else if budget.n < |ids| {
        blockers := [PoolBudgetTooSmall];
      } else {
        allocations := LegacyPool.Allocate(ids, budget.n);
      }
    }
  }

  // ---------------------------------------------------------------- runtime keys

  function KeyFor(env: Env, site: Site, primaryId: string, id: string): string {
    if id == primaryId then site.name else DeriveSecondaryRuntimeKey(env.hashHex, id)
  }

  function ClaimFor(env: Env, site: Site, primaryId: string): Domain -> Claim {
    (d: Domain) => Claim(KeyFor(env, site, primaryId, d.id), d.id, false)
  }

  /** The primary key is claimed first and tolerates no earlier owner at all. */
  function RuntimeClaims(env: Env, site: Site, sorted: seq<Domain>): seq<Claim> {
    if OnePrimary(sorted) then
      var primaryId := PrimaryOf(sorted).id;
      [Claim(site.name, primaryId, true)] + Map(sorted, ClaimFor(env, site, primaryId))
    else []
  }

  predicate DomainMappable(env: Env, site: Site, primaryId: string, d: Domain) {
    MappedPath(site, RawPath(site, d)).Some? && KeyFits(env, KeyFor(env, site, primaryId, d.id), site.phpVersion)
  }

  function DomainMappableIn(env: Env, site: Site, primaryId: string): Domain -> bool {
    (d: Domain) => DomainMappable(env, site, primaryId, d)
  }

  // ----------------------------------------------------------------------- rows

  const NOTHING := Payload("", None, None, None, None, None, None, None, NoNumber, None)

  function SiteRow(site: Site, primaryId: string): MapRow {
    MapRow(SiteKind, site.id, site.id, Some(primaryId), None, NOTHING.(primaryDomainId := primaryId))
  }

  function DomainRow(env: Env, site: Site, primaryId: string, d: Domain, workers: nat): MapRow {
    var enabled := PhpEnabled(env, site, primaryId, d.id);
    MapRow(DomainKind, d.id, site.id, Some(d.id), None,
           Payload(primaryId, Some(if d.id == primaryId then site.preset else "CUSTOM"), Some(AppStatus(site)),
                   AppMessage(site), MappedPath(site, RawPath(site, d)),
                   if enabled then site.phpVersion else None,
                   if enabled then Some(LegacyPool.PoolText(PoolCustom(site), workers)) else None,
                   Some(KeyFor(env, site, primaryId, d.id)),
                   if d.id == primaryId && d.appPort == NoNumber then site.appPort else d.appPort, None))
  }

  function DatabaseRow(site: Site, primaryId: string, choice: Choice, d: Database): MapRow {
    var purpose := if choice.Chosen? && choice.database.id == d.id then "APP_PRIMARY" else "AUXILIARY";
    MapRow(DatabaseKind, d.id, site.id, Some(primaryId), Some(d.id),
           NOTHING.(primaryDomainId := primaryId, purpose := Some(purpose)))
  }

  function DomainRowFor(env: Env, site: Site, primaryId: string, ids: seq<string>): Domain -> MapRow
    requires BudgetCovers(env, primaryId, |ids|)
  {
    (d: Domain) => DomainRow(env, site, primaryId, d, ShareOf(env, primaryId, ids, d.id))
  }

  function DatabaseRowFor(site: Site, primaryId: string, choice: Choice): Database -> MapRow {
    (d: Database) => DatabaseRow(site, primaryId, choice, d)
  }

  function ChoiceFor(env: Env, site: Site, primary: Domain, databases: seq<Database>): Choice {
    ResolvePrimaryDatabase(site, primary, databases, EvidenceOf(env, primary.id).modxDatabaseName)
  }

  // -------------------------------------------------------------- the verdict

  predicate ModxPasses(site: Site, choice: Choice) {
    IsModxPreset(site.preset) ==> site.phpVersion.Some? && choice.Chosen?
  }

  /** Everything the mapper demands of one site apart from the registry of runtime keys. */
  ghost predicate SiteMappable(env: Env, site: Site, sorted: seq<Domain>, databases: seq<Database>) {
    PoolPasses(env, site) && MessagePasses(env, site) && OnePrimary(sorted) && PositionsPass(sorted)
    && PrimaryMappable(env, site, sorted, databases, PrimaryOf(sorted))
  }

  ghost predicate PrimaryMappable(env: Env, site: Site, sorted: seq<Domain>, databases: seq<Database>, primary: Domain) {
    var choice := ChoiceFor(env, site, primary, databases);
    choice != Ambiguous && ModxPasses(site, choice)
    && All(sorted, PhpObservedIn(env, site, primary.id))
    && BudgetCovers(env, primary.id, |PhpIds(env, site, primary.id, sorted)|)
    && All(sorted, DomainMappableIn(env, site, primary.id))
  }

  /** The rows of a mappable site, in the order they are pushed. */
  ghost function SiteRows(env: Env, site: Site, sorted: seq<Domain>, databases: seq<Database>): seq<MapRow>
    requires SiteMappable(env, site, sorted, databases)
  {
    PrimaryRows(env, site, sorted, databases, PrimaryOf(sorted))
  }

  ghost function PrimaryRows(env: Env, site: Site, sorted: seq<Domain>, databases: seq<Database>, primary: Domain): seq<MapRow>
    requires PrimaryMappable(env, site, sorted, databases, primary)
  {
    [SiteRow(site, primary.id)]
    + Map(sorted, DomainRowFor(env, site, primary.id, PhpIds(env, site, primary.id, sorted)))
    + Map(SortedDatabases(env, databases), DatabaseRowFor(site, primary.id, ChoiceFor(env, site, primary, databases)))
  }

  function AllottedRow(env: Env, site: Site, primaryId: string, allocations: map<string, nat>): Domain -> MapRow {
    (d: Domain) => DomainRow(env, site, primaryId, d, Allotted(allocations, d.id))
  }

  /** One turn of the loop over the domains of a site: path, key, registry and row. */
  method PlanDomain(env: Env, site: Site, primaryId: string, d: Domain, workers: nat, owners: map<string, string>)
    returns (after: map<string, string>, rows: seq<MapRow>, blockers: seq<Blocker>)
    ensures var claim := Claim(KeyFor(env, site, primaryId, d.id), d.id, false);
            after == Claimed(owners, claim) && (blockers == [] <==> DomainMappable(env, site, primaryId, d) && Free(owners, claim))
    ensures MappedPath(site, RawPath(site, d)).Some? ==> rows == [DomainRow(env, site, primaryId, d, workers)]
    ensures MappedPath(site, RawPath(site, d)) == None ==> rows == []
  {
    after, rows := owners, [];
    blockers := PathBlockers(site, RawPath(site, d));
    var runtimeKey := KeyFor(env, site, primaryId, d.id);
    if !KeyFits(env, runtimeKey, site.phpVersion) { blockers := blockers + [RuntimeKeyInvalid]; }
    if runtimeKey in after && after[runtimeKey] != d.id {
      blockers := blockers + [RuntimeKeyCollision];
    } else {
      after := after[runtimeKey := d.id];
    }
    if MappedPath(site, RawPath(site, d)).Some? {
      rows := [DomainRow(env, site, primaryId, d, workers)];
    }
  }

  /** The loop over the domains of a site. */
  method PlanDomains(env: Env, site: Site, primaryId: string, sorted: seq<Domain>, allocations: map<string, nat>,
                     owners: map<string, string>)
    returns (after: map<string, string>, rows: seq<MapRow>, blockers: seq<Blocker>)
    ensures after == After(owners, Map(sorted, ClaimFor(env, site, primaryId)))
    ensures blockers == [] <==> All(sorted, DomainMappableIn(env, site, primaryId))
                                && Clashes(owners, Map(sorted, ClaimFor(env, site, primaryId))) == 0
    ensures blockers == [] ==> rows == Map(sorted, AllottedRow(env, site, primaryId, allocations))
  {
    after, rows, blockers := owners, [], [];
    ghost var claim, mappable, rowOf :=
      ClaimFor(env, site, primaryId), DomainMappableIn(env, site, primaryId), AllottedRow(env, site, primaryId, allocations);
    for i := 0 to |sorted|
      invariant after == After(owners, Map(sorted[..i], claim))
      invariant blockers == [] <==> All(sorted[..i], mappable) && Clashes(owners, Map(sorted[..i], claim)) == 0
      invariant blockers == [] ==> rows == Map(sorted[..i], rowOf)
    {
      PlanStep(sorted, i, owners, claim, mappable, rowOf);
      var newRows, found;
      after, newRows, found := PlanDomain(env, site, primaryId, sorted[i], Allotted(allocations, sorted[i].id), after);
      rows, blockers := rows + newRows, blockers + found;
    }
    WholePrefix(sorted);
  }

  lemma {:induction false} PlanStep(sorted: seq<Domain>, i: nat, owners: map<string, string>, claim: Domain -> Claim,
                 mappable: Domain -> bool, rowOf: Domain -> MapRow)
    requires i < |sorted|
    ensures var claims := Map(sorted[..i], claim);
            && After(owners, Map(sorted[..i + 1], claim)) == Claimed(After(owners, claims), claim(sorted[i]))
            && Clashes(owners, Map(sorted[..i + 1], claim))
               == Clashes(owners, claims) + if Free(After(owners, claims), claim(sorted[i])) then 0 else 1
    ensures All(sorted[..i + 1], mappable) <==> All(sorted[..i], mappable) && mappable(sorted[i])
    ensures Map(sorted[..i + 1], rowOf) == Map(sorted[..i], rowOf) + [rowOf(sorted[i])]
  {
    NextPrefix(sorted, i);
    MapOne(sorted[..i], sorted[i], claim);
    MapOne(sorted[..i], sorted[i], rowOf);
    AllGrows(sorted[..i], sorted[i], mappable);
    OneMoreClaim(owners, Map(sorted[..i], claim), claim(sorted[i]));
  }

  lemma {:induction false} OneMoreClaim(owners: map<string, string>, claims: seq<Claim>, c: Claim)
    ensures After(owners, claims + [c]) == Claimed(After(owners, claims), c)
    ensures Clashes(owners, claims + [c]) == Clashes(owners, claims) + if Free(After(owners, claims), c) then 0 else 1
  {
    assert (claims + [c])[..|claims|] == claims;
  }

  /** The loop over the databases of a site. */
  method PlanDatabases(site: Site, primaryId: string, choice: Choice, sorted: seq<Database>) returns (rows: seq<MapRow>)
    ensures rows == Map(sorted, DatabaseRowFor(site, primaryId, choice))
  {
    rows := [];
    for i := 0 to |sorted|
      invariant rows == Map(sorted[..i], DatabaseRowFor(site, primaryId, choice))
    {
      NextPrefix(sorted, i);
      MapOne(sorted[..i], sorted[i], DatabaseRowFor(site, primaryId, choice));
      rows := rows + [DatabaseRow(site, primaryId, choice, sorted[i])];
    }
    WholePrefix(sorted);
  }

  predicate EnabledAt(enabled: map<string, bool>, id: string) { id in enabled && enabled[id] }

  function EnabledIn(enabled: map<string, bool>): Domain -> bool { (d: Domain) => EnabledAt(enabled, d.id) }

  lemma {:induction false} FilterAgrees<T>(s: seq<T>, p: T -> bool, q: T -> bool)
    requires forall x <- s :: p(x) <==> q(x)
    ensures Filter(s, p) == Filter(s, q)
  {
    if s != [] {
      FilterAgrees(s[1..], p, q);
    }
  }

  lemma {:induction false} PhpIdListed(env: Env, site: Site, primaryId: string, sorted: seq<Domain>, d: Domain)
    requires d in sorted && PhpEnabled(env, site, primaryId, d.id)
    ensures d.id in PhpIds(env, site, primaryId, sorted)
  {
    var php := Filter(sorted, PhpOn(env, site, primaryId));
    FilterMembers(sorted, PhpOn(env, site, primaryId));
    assert d in php;
    var k :| 0 <= k < |php| && php[k] == d;
    assert Map(php, DomainId)[k] == d.id;
  }

  /** The staged row of a domain without PHP does not depend on the worker count. */
  lemma {:induction false} WorkersMatterToPhpOnly(env: Env, site: Site, primaryId: string, d: Domain, a: nat, b: nat)
    requires PhpEnabled(env, site, primaryId, d.id) ==> a == b
    ensures DomainRow(env, site, primaryId, d, a) == DomainRow(env, site, primaryId, d, b)
  {
  }

  lemma {:induction false} AllottedAreShares(env: Env, site: Site, primaryId: string, sorted: seq<Domain>, allocations: map<string, nat>)
    requires AllotsShares(env, primaryId, PhpIds(env, site, primaryId, sorted), allocations)
    ensures Map(sorted, AllottedRow(env, site, primaryId, allocations))
         == Map(sorted, DomainRowFor(env, site, primaryId, PhpIds(env, site, primaryId, sorted)))
  {
    var ids := PhpIds(env, site, primaryId, sorted);
    forall d <- sorted ensures AllottedRow(env, site, primaryId, allocations)(d) == DomainRowFor(env, site, primaryId, ids)(d) {
      if PhpEnabled(env, site, primaryId, d.id) {
        PhpIdListed(env, site, primaryId, sorted, d);
      }
      WorkersMatterToPhpOnly(env, site, primaryId, d, Allotted(allocations, d.id), ShareOf(env, primaryId, ids, d.id));
    }
    MapAgrees(sorted, AllottedRow(env, site, primaryId, allocations), DomainRowFor(env, site, primaryId, ids));
  }

  /** The decisions for a site whose primary domain is known. */
  method PlanPrimary(env: Env, site: Site, sorted: seq<Domain>, databases: seq<Database>, primary: Domain, owners: map<string, string>)
    returns (after: map<string, string>, rows: seq<MapRow>, blockers: seq<Blocker>)
    requires primary in sorted
    ensures var claims := Map(sorted, ClaimFor(env, site, primary.id));
            && after == After(owners, claims)
            && (blockers == [] <==> PrimaryMappable(env, site, sorted, databases, primary) && Clashes(owners, claims) == 0)
    ensures blockers == [] && Distinct(Map(sorted, DomainId)) ==> rows == PrimaryRows(env, site, sorted, databases, primary)
  {
    var choice := ChoiceFor(env, site, primary, databases);
    blockers := PathBlockers(site, RawPath(site, primary)) + ChoiceBlockers(site, choice);
    var enabled, unobserved := ObservePhp(env, site, primary.id, sorted);
    FilterAgrees(sorted, EnabledIn(enabled), PhpOn(env, site, primary.id));
    var ids := Map(Filter(sorted, EnabledIn(enabled)), DomainId);
    var allocations, shortages := AllocateWorkers(env, primary.id, ids);
    rows := if MappedPath(site, RawPath(site, primary)).Some? then [SiteRow(site, primary.id)] else [];
    var domainRows, found;
    after, domainRows, found := PlanDomains(env, site, primary.id, sorted, allocations, owners);
    var databaseRows := PlanDatabases(site, primary.id, choice, SortedDatabases(env, databases));
    rows := rows + domainRows + databaseRows;
    blockers := blockers + unobserved + shortages + found;
    if blockers == [] && Distinct(Map(sorted, DomainId)) {
      FilterKeepsDistinct(sorted, PhpOn(env, site, primary.id), DomainId);
      AllottedAreShares(env, site, primary.id, sorted, allocations);
    }
    if found == [] {
      assert DomainMappableIn(env, site, primary.id)(primary);
    }
  }

  function ChoiceBlockers(site: Site, choice: Choice): (blockers: seq<Blocker>)
    ensures blockers == [] <==> choice != Ambiguous && ModxPasses(site, choice)
  {
    (if choice == Ambiguous then [PrimaryDatabaseAmbiguous] else [])
    + (if IsModxPreset(site.preset) && site.phpVersion == None then [ModxPhpMissing] else [])
    + (if IsModxPreset(site.preset) && !choice.Chosen? then [ModxDatabaseUnresolved] else [])
  }

  /** The decisions for a site that has exactly one primary domain: positions, the primary's key, then the rest. */
  method PlanWithPrimary(env: Env, site: Site, sorted: seq<Domain>, databases: seq<Database>, owners: map<string, string>)
    returns (after: map<string, string>, rows: seq<MapRow>, blockers: seq<Blocker>)
    requires OnePrimary(sorted)
    ensures after == After(owners, RuntimeClaims(env, site, sorted))
    ensures blockers == [] <==> PositionsPass(sorted) && PrimaryMappable(env, site, sorted, databases, PrimaryOf(sorted))
                                && Clashes(owners, RuntimeClaims(env, site, sorted)) == 0
    ensures blockers == [] && Distinct(Map(sorted, DomainId)) ==> rows == PrimaryRows(env, site, sorted, databases, PrimaryOf(sorted))
  {
    var primary := PrimaryOf(sorted);
    PrimaryIsListed(sorted);
    PrimaryClaims(env, site, sorted, owners);
    blockers := if PositionsPass(sorted) then [] else [PositionInvalid];
    if site.name in owners {
      after := owners;
      blockers := blockers + [RuntimeKeyCollision];
    } else {
      after := owners[site.name := primary.id];
    }
    var found;
    after, rows, found := PlanPrimary(env, site, sorted, databases, primary, after);
    blockers := blockers + found;
  }

  /** The two texts of a site that are copied into the map must be free of secrets and of unsafe directives. */
  method CheckTexts(env: Env, site: Site) returns (blockers: seq<Blocker>)
    ensures blockers == [] <==> PoolPasses(env, site) && MessagePasses(env, site)
  {
    var pool := LegacyPool.SafePoolCustom(site.phpPoolCustom, env.suspicious);
    blockers := (if pool.Blocked? then [PoolCustomUnsafe] else [])
                + (if MessagePasses(env, site) then [] else [ErrorMessageUnsafe]);
  }

  /** The whole turn of the site loop, over the sorted domains of the site. */
  method PlanSite(env: Env, site: Site, sorted: seq<Domain>, databases: seq<Database>, owners: map<string, string>)
    returns (after: map<string, string>, rows: seq<MapRow>, blockers: seq<Blocker>)
    ensures after == After(owners, RuntimeClaims(env, site, sorted))
    ensures blockers == [] <==> SiteMappable(env, site, sorted, databases) && Clashes(owners, RuntimeClaims(env, site, sorted)) == 0
    ensures blockers == [] && Distinct(Map(sorted, DomainId)) ==> rows == SiteRows(env, site, sorted, databases)
  {
    blockers := CheckTexts(env, site);
    if sorted == [] {
      return owners, [], blockers + [SiteWithoutDomain];
    }
    if !OnePrimary(sorted) {
      return owners, [], blockers + [PrimaryDomainInvalid];
    }
    var found;
    after, rows, found := PlanWithPrimary(env, site, sorted, databases, owners);
    blockers := blockers + found;
  }

  lemma {:induction false} PrimaryIsListed(sorted: seq<Domain>)
    requires OnePrimary(sorted)
    ensures PrimaryOf(sorted) in sorted && PrimaryOf(sorted).isPrimary
  {
    FilterMembers(sorted, Primary);
    assert PrimaryOf(sorted) in Filter(sorted, Primary);
  }

  /** Claiming the primary's key first, and then the keys of all domains, is claiming the site's claims. */
  lemma {:induction false} PrimaryClaims(env: Env, site: Site, sorted: seq<Domain>, owners: map<string, string>)
    requires OnePrimary(sorted)
    ensures var primary := PrimaryOf(sorted);
            var taken := site.name in owners;
            var first := if taken then owners else owners[site.name := primary.id];
            var claims := Map(sorted, ClaimFor(env, site, primary.id));
            && After(owners, RuntimeClaims(env, site, sorted)) == After(first, claims)
            && (Clashes(owners, RuntimeClaims(env, site, sorted)) == 0 <==> !taken && Clashes(first, claims) == 0)
  {
    var primary := PrimaryOf(sorted);
    FirstClaim(owners, Claim(site.name, primary.id, true), Map(sorted, ClaimFor(env, site, primary.id)));
  }

  lemma {:induction false} FirstClaim(owners: map<string, string>, c: Claim, claims: seq<Claim>)
    ensures After(owners, [c] + claims) == After(Claimed(owners, c), claims)
    ensures Clashes(owners, [c] + claims) == (if Free(owners, c) then 0 else 1) + Clashes(Claimed(owners, c), claims)
  {
    RunsCompose(owners, [c], claims);
    assert [c][..0] == [];
  }
}
