/** The separately written check of a migrated database (migrations/release/invariants.ts:89-93, 107-161, 168-253). */
module FinalInvariants {
  import opened Common
  import opened Claims
  import opened RuntimeKeys
  import opened LegacySource
  import opened Positions
  import LegacyPaths

  datatype FinalSite = FinalSite(id: string, name: string, rootPath: Text)
  datatype FinalDomain = FinalDomain(id: string, siteId: string, domain: Text, isPrimary: bool, position: int, aliases: Text,
                                     preset: Text, appStatus: Text, filesRelPath: Text, runtimeKey: Text, phpVersion: Text, appPort: Num)
  datatype FinalDatabase = FinalDatabase(id: string, siteId: Text, siteDomainId: Text, purpose: Text, dbType: string)

  datatype Final = Final(sites: seq<FinalSite>, domains: seq<FinalDomain>, databases: seq<FinalDatabase>)
  datatype Counts = Counts(sites: nat, siteDomains: nat, databases: nat)

  datatype Violation =
    | RowCountChanged | SiteWithoutDomainLeft | PrimaryOrPositionInvalid | HostnameRowInvalid | HostnameInvalid
    | RequiredFieldMissing | PresetUnsupported | StatusInvalid | PathNotClean | KeyInvalid | PortInvalid | KeyDuplicate
    | OwnershipInvalid | PrimaryDuplicate | PurposeInvalid | ModxInvalid

  // ------------------------------------------------------------- SQL aggregates

  function DomainOn(siteId: string): FinalDomain -> bool { (d: FinalDomain) => d.siteId == siteId }
  predicate MarkedPrimary(d: FinalDomain) { d.isPrimary }
  function FinalPosition(d: FinalDomain): int { d.position }

  /** The HAVING clause of the position query, negated, for one group. */
  predicate GroupContiguous(group: seq<FinalDomain>) {
    |Filter(group, MarkedPrimary)| == 1 && AggregatesContiguous(Map(group, FinalPosition))
  }

  predicate EverySiteHasDomain(f: Final) {
    forall site <- f.sites :: exists d <- f.domains :: d.siteId == site.id
  }

  predicate GroupsContiguous(f: Final) {
    forall d <- f.domains :: GroupContiguous(Filter(f.domains, DomainOn(d.siteId)))
  }

  predicate OwnedInSite(f: Final, db: FinalDatabase) {
    db.siteDomainId.Some? && db.siteId.Some?
    && exists d <- f.domains :: d.id == db.siteDomainId.value && d.siteId == db.siteId.value
  }

  function PrimaryFor(domainId: Text): FinalDatabase -> bool {
    (db: FinalDatabase) => db.purpose == Some("APP_PRIMARY") && db.siteDomainId == domainId
  }

  predicate OnePrimaryEach(f: Final) {
    forall db <- f.databases :: |Filter(f.databases, PrimaryFor(db.siteDomainId))| <= 1
  }

  predicate PurposeKnown(db: FinalDatabase) {
    db.purpose == Some("APP_PRIMARY") || db.purpose == Some("AUXILIARY")
  }

  function ModxPrimary(domainId: string): FinalDatabase -> bool {
    (db: FinalDatabase) => db.siteDomainId == Some(domainId) && db.purpose == Some("APP_PRIMARY")
                           && (db.dbType == "MARIADB" || db.dbType == "MYSQL")
  }

  /** TRIM(x) = '' in SQLite: nothing but spaces. */
  predicate Blank(s: string) { forall c <- s :: c == ' ' }

  predicate ModxComplete(f: Final, d: FinalDomain) {
    d.preset.Some? && IsModxPreset(d.preset.value) ==>
      d.phpVersion.Some? && !Blank(d.phpVersion.value) && |Filter(f.databases, ModxPrimary(d.id))| == 1
  }

  // --------------------------------------------------------------- one domain row

  /** The root path the inner join with sites supplies; None when the site row is missing. */
  function RootOf(sites: seq<FinalSite>, siteId: string): Option<Text> {
    if sites == [] then None
    else if sites[0].id == siteId then Some(sites[0].rootPath)
    else RootOf(sites[1..], siteId)
  }

  predicate StatusKnown(status: string) {
    status == "PROVISIONING" || status == "RUNNING" || status == "DEPLOYING" || status == "UPDATING" || status == "ERROR"
  }

  predicate RowComplete(root: Text, d: FinalDomain) {
    d.preset.Some? && d.appStatus.Some? && d.filesRelPath.Some? && d.runtimeKey.Some? && root.Some?
  }

  predicate PathClean(root: string, path: string) {
    LegacyPaths.NormalizeRelativePath(path) == LegacyPaths.Normalized(path) && LegacyPaths.IsRelativePathContained(root, path)
  }

  predicate RowSound(env: Env, root: Text, d: FinalDomain) {
    && RowComplete(root, d)
    && KnownPreset(d.preset.value) && StatusKnown(d.appStatus.value)
    && PathClean(root.value, d.filesRelPath.value)
    && KeyFits(env, d.runtimeKey.value, d.phpVersion) && ValidPort(d.appPort)
  }

  /** A domain without a site row does not take part in the join. */
  predicate DomainSound(env: Env, f: Final, d: FinalDomain) {
    RootOf(f.sites, d.siteId).Some? ==> RowSound(env, RootOf(f.sites, d.siteId).value, d)
  }

  function DomainSoundIn(env: Env, f: Final): FinalDomain -> bool { (d: FinalDomain) => DomainSound(env, f, d) }

  function FinalNameClaims(env: Env): FinalDomain -> seq<Claim> {
    (d: FinalDomain) =>
      if d.domain.Some? && d.aliases.Some? then NameClaims(env, d.id, d.domain.value, d.aliases.value) else []
  }

  predicate FinalNamesUsable(env: Env, d: FinalDomain) {
    d.domain.Some? && d.aliases.Some? && NamesUsable(env, d.domain.value, d.aliases.value)
  }

  function FinalNamesUsableIn(env: Env): FinalDomain -> bool { (d: FinalDomain) => FinalNamesUsable(env, d) }

  /** The key claim of a joined row that has all required fields. */
  function KeyClaims(f: Final): FinalDomain -> seq<Claim> {
    (d: FinalDomain) =>
      if RootOf(f.sites, d.siteId).Some? && RowComplete(RootOf(f.sites, d.siteId).value, d)
      then [Claim(d.runtimeKey.value, d.id, false)] else []
  }

  // ------------------------------------------------------------------ the verdict

  ghost predicate HostnamesDisjoint(env: Env, f: Final) {
    All(f.domains, FinalNamesUsableIn(env)) && Compatible(Concat(f.domains, FinalNameClaims(env)))
  }

  ghost predicate DomainsSound(env: Env, f: Final) {
    All(f.domains, DomainSoundIn(env, f)) && Compatible(Concat(f.domains, KeyClaims(f)))
  }

  predicate CountsKept(f: Final, baseline: Counts) {
    |f.sites| == baseline.sites && |f.domains| == baseline.siteDomains && |f.databases| == baseline.databases
  }

  ghost predicate DatabasesSound(f: Final) {
    && (forall db <- f.databases :: OwnedInSite(f, db))
    && OnePrimaryEach(f)
    && (forall db <- f.databases :: PurposeKnown(db))
    && (forall d <- f.domains :: ModxComplete(f, d))
  }

  /** Everything the checker asks of a migrated database. */
  ghost predicate FinalOk(env: Env, f: Final, baseline: Counts) {
    CountsKept(f, baseline) && EverySiteHasDomain(f) && GroupsContiguous(f)
    && HostnamesDisjoint(env, f) && DomainsSound(env, f) && DatabasesSound(f)
  }

  // ------------------------------------------------------------------ the checker

  method CheckHostnames(env: Env, domains: seq<FinalDomain>) returns (violations: seq<Violation>)
    ensures violations == [] <==> All(domains, FinalNamesUsableIn(env)) && Compatible(Concat(domains, FinalNameClaims(env)))
  {
    violations := [];
    var claims: map<string, string> := map[];
    for i := 0 to |domains|
      invariant Registered(claims, Concat(domains[..i], FinalNameClaims(env)))
      invariant violations == [] <==> All(domains[..i], FinalNamesUsableIn(env))
                                      && Compatible(Concat(domains[..i], FinalNameClaims(env)))
    {
      var d := domains[i];
      ghost var earlier := Concat(domains[..i], FinalNameClaims(env));
      NextPrefix(domains, i);
      ConcatOne(domains[..i], d, FinalNameClaims(env));
      AllGrows(domains[..i], d, FinalNamesUsableIn(env));
      if d.domain == None || d.aliases == None {
        NoMore(earlier);
        violations := violations + [HostnameRowInvalid];
      } else {
        var found;
        claims, found := AddHostnameClaims(env, d.id, d.domain.value, d.aliases.value, claims, earlier);
        violations := violations + if found == [] then [] else [Violation.HostnameInvalid];
      }
    }
    WholePrefix(domains);
  }

  function RowViolations(env: Env, root: string, d: FinalDomain): (violations: seq<Violation>)
    requires RowComplete(Some(root), d)
    ensures violations == [] <==> RowSound(env, Some(root), d)
  {
    (if KnownPreset(d.preset.value) then [] else [PresetUnsupported])
    + (if StatusKnown(d.appStatus.value) then [] else [StatusInvalid])
    + (if PathClean(root, d.filesRelPath.value) then [] else [PathNotClean])
    + (if KeyFits(env, d.runtimeKey.value, d.phpVersion) then [] else [KeyInvalid])
    + (if ValidPort(d.appPort) then [] else [Violation.PortInvalid])
  }

  /** One turn of the loop over the joined rows. */
  method CheckDomain(env: Env, f: Final, d: FinalDomain, owners: map<string, string>)
    returns (after: map<string, string>, violations: seq<Violation>)
    ensures after == After(owners, KeyClaims(f)(d))
    ensures violations == [] <==> DomainSound(env, f, d) && Clashes(owners, KeyClaims(f)(d)) == 0
  {
    after, violations := owners, [];
    var joined := RootOf(f.sites, d.siteId);
    if joined.Some? {
      if !RowComplete(joined.value, d) {
        violations := [RequiredFieldMissing];
      } else {
        violations := RowViolations(env, joined.value.value, d);
        var claim := Claim(d.runtimeKey.value, d.id, false);
        OneClaim(owners, claim);
        if claim.key in owners && owners[claim.key] != d.id {
          violations := violations + [KeyDuplicate];
        } else {
          after := owners[claim.key := d.id];
        }
      }
    }
  }

  lemma {:induction false} OneClaim(owners: map<string, string>, c: Claim)
    ensures After(owners, [c]) == Claimed(owners, c) && Clashes(owners, [c]) == if Free(owners, c) then 0 else 1
  {
    assert [c][..0] == [];
  }

  method CheckDomains(env: Env, f: Final) returns (violations: seq<Violation>)
    ensures violations == [] <==> DomainsSound(env, f)
  {
    violations := [];
    var runtimeKeys: map<string, string> := map[];
    ghost var claims, sound := KeyClaims(f), DomainSoundIn(env, f);
    for i := 0 to |f.domains|
      invariant runtimeKeys == After(map[], Concat(f.domains[..i], claims))
      invariant violations == [] <==> All(f.domains[..i], sound) && Clashes(map[], Concat(f.domains[..i], claims)) == 0
    {
      CheckStep(f.domains, i, claims, sound);
      var found;
      runtimeKeys, found := CheckDomain(env, f, f.domains[i], runtimeKeys);
      violations := violations + found;
    }
    WholePrefix(f.domains);
    NoClashMeansCompatible(map[], [], Concat(f.domains, claims));
    assert [] + Concat(f.domains, claims) == Concat(f.domains, claims);
  }

  lemma {:induction false} CheckStep(domains: seq<FinalDomain>, i: nat, claims: FinalDomain -> seq<Claim>, sound: FinalDomain -> bool)
    requires i < |domains|
    ensures var before := Concat(domains[..i], claims);
            && After(map[], Concat(domains[..i + 1], claims)) == After(After(map[], before), claims(domains[i]))
            && Clashes(map[], Concat(domains[..i + 1], claims))
               == Clashes(map[], before) + Clashes(After(map[], before), claims(domains[i]))
    ensures All(domains[..i + 1], sound) <==> All(domains[..i], sound) && sound(domains[i])
  {
    NextPrefix(domains, i);
    ConcatOne(domains[..i], domains[i], claims);
    AllGrows(domains[..i], domains[i], sound);
    RunsCompose(map[], Concat(domains[..i], claims), claims(domains[i]));
  }

  method CheckDatabases(f: Final) returns (violations: seq<Violation>)
    ensures violations == [] <==> DatabasesSound(f)
  {
    violations := [];
    if exists db <- f.databases :: !OwnedInSite(f, db) { violations := violations + [OwnershipInvalid]; }
    if !OnePrimaryEach(f) { violations := violations + [PrimaryDuplicate]; }
    if exists db <- f.databases :: !PurposeKnown(db) { violations := violations + [PurposeInvalid]; }
    if exists d <- f.domains :: !ModxComplete(f, d) { violations := violations + [ModxInvalid]; }
  }

  /** checkFinalInvariants with the row counts: no violation exactly for a sound database. */
  method CheckFinal(env: Env, f: Final, baseline: Counts) returns (violations: seq<Violation>)
    ensures violations == [] <==> FinalOk(env, f, baseline)
  {
    violations := (if CountsKept(f, baseline) then [] else [RowCountChanged])
                  + (if EverySiteHasDomain(f) then [] else [SiteWithoutDomainLeft])
                  + (if GroupsContiguous(f) then [] else [PrimaryOrPositionInvalid]);
    var hostnames := CheckHostnames(env, f.domains);
    var domains := CheckDomains(env, f);
    var databases := CheckDatabases(f);
    violations := violations + hostnames + domains + databases;
  }
}
