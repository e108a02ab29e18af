/** The guard the domain-centric migration runs over the staging rows before it copies anything, row by row
    (api/prisma/migrations/z20260731000000_domain_centric_applications/migration.sql:85-94, 133-225). */
module MapGuard {
  import opened Common
  import opened RuntimeKeys
  import opened LegacySource
  import opened PrimaryDatabase
  import opened SitePlan
  import opened LegacyMap
  import opened MapCoverage
  import opened DomainCentricMigration
  import opened MigrationTheorem
  import opened RuntimeIdentities
  import opened LegacyPaths

  // ------------------------------------------------------------------ SQL predicates

  /** length(trim(x)) <> 0: SQLite trims spaces only. */
  predicate Filled(text: string) { exists c <- text :: c != ' ' }

  /** instr(text, part) <> 0 */
  ghost predicate Contains(text: string, part: string) { exists i: nat :: StandsAt(text, part, i) }

  predicate StandsAt(text: string, part: string, i: nat) { i + |part| <= |text| && text[i..i + |part|] == part }

  const MAX_PATH: nat := 255

  /** The conditions on files_rel_path. */
  ghost predicate PathReady(path: string) {
    && 1 <= |path| <= MAX_PATH
    && path[0] != ' ' && path[|path| - 1] != ' ' && path[0] != '/' && path[|path| - 1] != '/'
    && (forall c <- path :: PathChar(c) || c == '/')
    && path != "." && path != ".." && !Contains(path, "//")
    && !Contains("/" + path + "/", "/./") && !Contains("/" + path + "/", "/../")
  }

  predicate KeyReady(key: string) { 1 <= |key| <= 64 && forall c <- key :: KeyTail(c) }

  predicate HexDigit(c: char) { '0' <= c <= '9' || 'a' <= c <= 'f' }

  predicate DerivedKey(key: string) { |key| == 21 && key[0] == 'd' && forall c <- key[1..] :: HexDigit(c) }

  // ------------------------------------------------------------------ rows and joins

  /** The primary domain a site's rows must name. */
  ghost predicate IsPrimaryOf(t: Tables, domainId: string, siteId: string) {
    exists p <- DomainsOf(t.domains) :: p.id == domainId && p.siteId == siteId && p.isPrimary
  }

  predicate RowFilled(m: MapRow) { Filled(m.sourceId) && Filled(m.siteId) && Filled(m.payload.primaryDomainId) }

  ghost predicate SiteGuard(t: Tables, s: Site, m: MapRow) {
    m.siteId == s.id && m.domainId == Some(m.payload.primaryDomainId) && IsPrimaryOf(t, m.payload.primaryDomainId, s.id)
  }

  ghost predicate DomainGuard(t: Tables, s: Site, d: Domain, m: MapRow) {
    && m.siteId == d.siteId && m.domainId == Some(d.id) && m.databaseId == None
    && IsPrimaryOf(t, m.payload.primaryDomainId, d.siteId)
    && m.payload.preset.Some? && KnownPreset(m.payload.preset.value)
    && (m.payload.appStatus == Some("RUNNING") || m.payload.appStatus == Some("ERROR"))
    && m.payload.filesRelPath.Some? && PathReady(m.payload.filesRelPath.value)
    && m.payload.runtimeKey.Some? && KeyReady(m.payload.runtimeKey.value) && ValidPort(m.payload.appPort)
    && (if d.isPrimary then
          && m.payload.preset == Some(s.preset) && m.payload.runtimeKey == Some(s.name)
          && m.payload.appPort == (if d.appPort == NoNumber then s.appPort else d.appPort)
          && m.payload.phpVersion == s.phpVersion
        else
          m.payload.preset == Some("CUSTOM") && m.payload.appPort == d.appPort && DerivedKey(m.payload.runtimeKey.value))
  }

  ghost predicate DatabaseGuard(t: Tables, d: Database, m: MapRow) {
    && d.siteId == Some(m.siteId) && m.databaseId == Some(d.id)
    && m.domainId.Some? && (exists p <- DomainsOf(t.domains) :: p.id == m.domainId.value && p.siteId == m.siteId)
    && (m.payload.purpose == Some("APP_PRIMARY") || m.payload.purpose == Some("AUXILIARY"))
  }

  /** Every row the guard looks at one by one; m is what the join finds for its source. */
  ghost predicate RowsGuarded(t: Tables, rows: seq<MapRow>) {
    && (forall m <- rows :: RowFilled(m))
    && (forall s <- SitesOf(t.sites) ::
          var m := Find(rows, SiteKind, s.id); m.Some? && SiteGuard(t, s, m.value))
    && (forall s, d | s in SitesOf(t.sites) && d in DomainsOf(t.domains) && d.siteId == s.id ::
          var m := Find(rows, DomainKind, d.id); m.Some? && DomainGuard(t, s, d, m.value))
    && (forall d <- DatabasesOf(t.databases) ::
          var m := Find(rows, DatabaseKind, d.id); m.Some? && DatabaseGuard(t, d, m.value))
  }

  // ------------------------------------------------------------------------- paths

  lemma {:induction false} SplitFirst(d: char, rest: string)
    ensures Split([d] + rest) == if d == '/' then [""] + Split(rest) else [[d] + Split(rest)[0]] + Split(rest)[1..]
  {
    assert ([d] + rest)[1..] == rest;
  }

  /** Putting a character in front of the first part does not touch the parts behind. */
  lemma {:induction false} FrontedParts(d: char, parts: seq<string>, more: seq<string>)
    requires parts != []
    ensures [[d] + (parts + more)[0]] + (parts + more)[1..] == ([[d] + parts[0]] + parts[1..]) + more
    ensures [""] + (parts + more) == ([""] + parts) + more
  {
  }

  lemma {:induction false} Spelled(a: string, b: string)
    requires a != ""
    ensures a == [a[0]] + a[1..] && a + "/" + b == [a[0]] + (a[1..] + "/" + b)
  {
  }

  lemma {:induction false} SplitAppend(a: string, b: string)
    ensures Split(a + "/" + b) == Split(a) + Split(b)
    decreases |a|
  {
    if a == "" {
      assert a + "/" + b == ['/'] + b;
      SplitFirst('/', b);
    } else {
      var rest := a[1..];
      Spelled(a, b);
      SplitAppend(rest, b);
      SplitFirst(a[0], rest);
      SplitFirst(a[0], rest + "/" + b);
      FrontedParts(a[0], Split(rest), Split(b));
    }
  }

  /** A part between two slashes is a part. */
  lemma {:induction false} MiddlePart(text: string, part: string)
    requires Contains(text, "/" + part + "/") && '/' !in part
    ensures part in Split(text)
  {
    var needle := "/" + part + "/";
    var i: nat :| StandsAt(text, needle, i);
    var a, b := text[..i], text[i + |needle|..];
    assert text == a + "/" + (part + "/" + b);
    SplitAppend(a, part + "/" + b);
    SplitPrefix(part, b);
    assert (Split(a) + ([part] + Split(b)))[|Split(a)|] == part;
  }

  lemma {:induction false} Bracketed(path: string)
    ensures Split("/" + path + "/") == [""] + Split(path) + [""]
  {
    assert "/" + path + "/" == "" + "/" + (path + "/" + "");
    SplitAppend("", path + "/" + "");
    SplitAppend(path, "");
  }

  lemma {:induction false} CleanEnd(path: string)
    requires Clean(path) && path != ""
    ensures path[|path| - 1] != '/' && !Contains(path, "//")
  {
    assert "/" + "" + "/" == "//";
    if path[|path| - 1] == '/' { LastSlash(path); }
    if Contains(path, "//") { MiddlePart(path, ""); }
  }

  lemma {:induction false} LastSlash(path: string)
    requires path != "" && path[|path| - 1] == '/'
    ensures "" in Split(path)
  {
    var front := path[..|path| - 1];
    assert path == front + "/" + "";
    SplitAppend(front, "");
    assert (Split(front) + [""])[|Split(front)|] == "";
  }

  lemma {:induction false} OwnPart(part: string)
    requires '/' !in part
    ensures part in Split(part)
  {
    SplitPrefix(part, "");
  }

  lemma {:induction false} CleanMiddle(path: string, part: string)
    requires Clean(path) && (part == "." || part == "..")
    ensures !Contains("/" + path + "/", "/" + part + "/") && path != part
  {
    Bracketed(path);
    if path == part { OwnPart(part); }
    if Contains("/" + path + "/", "/" + part + "/") { MiddlePart("/" + path + "/", part); }
  }

  /** Of a clean path the guard asks only the length. */
  lemma {:induction false} CleanIsReady(path: string)
    requires Clean(path)
    ensures PathReady(path) <==> |path| <= MAX_PATH
  {
    CleanChars(path);
    CleanEnd(path);
    CleanMiddle(path, ".");
    CleanMiddle(path, "..");
    assert "/" + "." + "/" == "/./" && "/" + ".." + "/" == "/../";
    assert path[0] in path && path[|path| - 1] in path;
  }

  // ------------------------------------------------------------------- row by row

  /** The digest of an id in hex has at least the twenty digits a key takes. */
  ghost predicate LongHexHash(env: Env) { HexHash(env) && forall id :: |env.hashHex(id)| >= 20 }

  lemma {:induction false} DerivedKeyIsDerived(env: Env, id: string)
    requires LongHexHash(env)
    ensures DerivedKey(DeriveSecondaryRuntimeKey(env.hashHex, id))
  {
    var key, hex := DeriveSecondaryRuntimeKey(env.hashHex, id), env.hashHex(id);
    assert key[1..] == hex[..20];
    forall c <- key[1..] ensures HexDigit(c) { assert c in hex; }
  }

  lemma {:induction false} PrimaryOfSite(env: Env, t: Tables, site: Site) returns (primary: Domain)
    requires SitePasses(env, t, site)
    ensures primary == PrimaryOf(DomainsFor(env, t, site)) && IsPrimaryOf(t, primary.id, site.id)
  {
    primary := PrimaryFacts(env, t, site);
  }

  /** A domain is marked primary exactly when it is the one the site's rows name. */
  lemma {:induction false} MarkedIsPrimary(env: Env, t: Tables, site: Site, d: Domain)
    requires IdsDistinct(t) && SitePasses(env, t, site) && d in DomainsFor(env, t, site)
    ensures d.isPrimary <==> d.id == PrimaryOf(DomainsFor(env, t, site)).id
  {
    var sorted, primary := DomainsFor(env, t, site), PrimaryOf(DomainsFor(env, t, site));
    FilterMembers(sorted, Primary);
    assert primary in Filter(sorted, Primary) && primary in sorted;
    if d.isPrimary {
      assert d in Filter(sorted, Primary);
    }
    if d.id == primary.id {
      OwnDomain(env, t, site, d);
      OwnDomain(env, t, site, primary);
      SameIdSameDomain(DomainsOf(t.domains), d, primary);
    }
  }

  lemma {:induction false} PathOfRow(site: Site, d: Domain)
    requires MappedPath(site, RawPath(site, d)).Some?
    ensures PathReady(MappedPath(site, RawPath(site, d)).value) <==> |MappedPath(site, RawPath(site, d)).value| <= MAX_PATH
  {
    MappedPathIsClean(site, RawPath(site, d));
    NormalizedFixedPoint(MappedPath(site, RawPath(site, d)).value);
    CleanIsReady(MappedPath(site, RawPath(site, d)).value);
  }

  lemma {:induction false} KeyOfRow(env: Env, site: Site, primaryId: string, d: Domain)
    requires LongHexHash(env) && DomainMappable(env, site, primaryId, d)
    ensures KeyReady(KeyFor(env, site, primaryId, d.id))
    ensures d.id != primaryId ==> DerivedKey(KeyFor(env, site, primaryId, d.id))
  {
    if d.id != primaryId { DerivedKeyIsDerived(env, d.id); }
  }

  lemma {:induction false} PrimaryHasPhp(env: Env, site: Site, primaryId: string, d: Domain, workers: nat)
    ensures d.id == primaryId ==> DomainRow(env, site, primaryId, d, workers).payload.phpVersion == site.phpVersion
  {
  }

  /** What the guard asks of a domain's row beyond the path and the key. */
  ghost predicate PlainDomainGuard(t: Tables, s: Site, d: Domain, m: MapRow) {
    && m.siteId == d.siteId && m.domainId == Some(d.id) && m.databaseId == None
    && IsPrimaryOf(t, m.payload.primaryDomainId, d.siteId)
    && m.payload.preset.Some? && KnownPreset(m.payload.preset.value)
    && (m.payload.appStatus == Some("RUNNING") || m.payload.appStatus == Some("ERROR"))
    && ValidPort(m.payload.appPort)
  }

  lemma {:induction false} PlainGuardOfRow(env: Env, t: Tables, site: Site, primaryId: string, d: Domain, workers: nat)
    requires SiteFits(env, site) && ValidPort(d.appPort) && d.siteId == site.id && IsPrimaryOf(t, primaryId, site.id)
    ensures PlainDomainGuard(t, site, d, DomainRow(env, site, primaryId, d, workers))
  {
  }

  lemma {:induction false} GuardOfRow(env: Env, t: Tables, site: Site, primaryId: string, d: Domain, workers: nat)
    requires LongHexHash(env) && SiteFits(env, site) && ValidPort(d.appPort) && DomainMappable(env, site, primaryId, d)
    requires d.siteId == site.id && IsPrimaryOf(t, primaryId, site.id) && (d.isPrimary <==> d.id == primaryId)
    ensures var m := DomainRow(env, site, primaryId, d, workers);
            && m.payload.filesRelPath.Some?
            && (DomainGuard(t, site, d, m) <==> |m.payload.filesRelPath.value| <= MAX_PATH)
  {
    PathOfRow(site, d);
    KeyOfRow(env, site, primaryId, d);
    PrimaryHasPhp(env, site, primaryId, d, workers);
    PlainGuardOfRow(env, t, site, primaryId, d, workers);
  }

  lemma {:induction false} GuardOfDomain(env: Env, t: Tables, site: Site, d: Domain)
    requires LegacyOk(env, t) && LongHexHash(env) && site in SitesOf(t.sites) && d in DomainsOf(t.domains) && d.siteId == site.id
    ensures var m := Find(MapRows(env, t), DomainKind, d.id);
            && m.Some? && m.value in MapRows(env, t) && m.value.kind == DomainKind && m.value.payload.filesRelPath.Some?
            && (DomainGuard(t, site, d, m.value) <==> |m.value.payload.filesRelPath.value| <= MAX_PATH)
  {
    OwnSockets(env);
    var owner, primaryId, workers := DomainFacts(env, env, t, d);
    MappableIds(env, t);
    SameSite(SitesOf(t.sites), site, owner);
    var primary := PrimaryOfSite(env, t, site);
    MarkedIsPrimary(env, t, site, d);
    DomainReadable(env, t, d);
    RowOfDomain(env, t, site, d);
    ShareOfDomain(env, t, site, d);
    var share := ShareOf(env, primary.id, PhpIds(env, site, primary.id, DomainsFor(env, t, site)), d.id);
    GuardOfRow(env, t, site, primary.id, d, share);
  }

  lemma {:induction false} RowOfDomain(env: Env, t: Tables, site: Site, d: Domain)
    requires LegacyOk(env, t) && site in SitesOf(t.sites) && d in DomainsOf(t.domains) && d.siteId == site.id
    ensures SitePasses(env, t, site)
    ensures DomainRowIn(env, t, site)(d) in MapRows(env, t)
    ensures Find(MapRows(env, t), DomainKind, d.id) == Some(DomainRowIn(env, t, site)(d))
  {
    DomainHasRow(env, t, site, d);
    DomainRowShape(env, t, site, d);
    RowKeysDistinct(env, t);
    FindUnique(MapRows(env, t), DomainRowIn(env, t, site)(d));
  }

  lemma {:induction false} ShareOfDomain(env: Env, t: Tables, site: Site, d: Domain)
    requires SitePasses(env, t, site)
    ensures var primaryId := PrimaryOf(DomainsFor(env, t, site)).id;
            var ids := PhpIds(env, site, primaryId, DomainsFor(env, t, site));
            BudgetCovers(env, primaryId, |ids|)
            && DomainRowIn(env, t, site)(d) == DomainRow(env, site, primaryId, d, ShareOf(env, primaryId, ids, d.id))
  {
  }

  lemma {:induction false} GuardOfSite(env: Env, t: Tables, site: Site)
    requires LegacyOk(env, t) && site in SitesOf(t.sites)
    ensures var m := Find(MapRows(env, t), SiteKind, site.id); m.Some? && SiteGuard(t, site, m.value)
  {
    SiteHasRow(env, t, site);
    RowKeysDistinct(env, t);
    FindUnique(MapRows(env, t), SiteRowIn(env, t, site));
    var primary := PrimaryOfSite(env, t, site);
  }

  lemma {:induction false} DatabaseIsFound(env: Env, t: Tables, site: Site, d: Database)
    requires LegacyOk(env, t) && d.siteId == Some(site.id) && OwnerIs(t, site, site.id) && d in DatabasesOf(t.databases)
    ensures SitePasses(env, t, site) && Find(MapRows(env, t), DatabaseKind, d.id) == Some(DatabaseRowIn(env, t, site)(d))
  {
    DatabaseHasRow(env, t, site, d);
    DatabaseRowShape(env, t, site, d);
    RowKeysDistinct(env, t);
    FindUnique(MapRows(env, t), DatabaseRowIn(env, t, site)(d));
  }

  lemma {:induction false} GuardOfDatabase(env: Env, t: Tables, d: Database)
    requires LegacyOk(env, t) && d in DatabasesOf(t.databases)
    ensures var m := Find(MapRows(env, t), DatabaseKind, d.id); m.Some? && DatabaseGuard(t, d, m.value)
  {
    var site := SiteOfDatabase(env, t, d);
    DatabaseIsFound(env, t, site, d);
    var primary := PrimaryOfSite(env, t, site);
  }

  // ------------------------------------------------------------------- blank ids

  ghost predicate IdsFilled(t: Tables) {
    && (forall s <- SitesOf(t.sites) :: Filled(s.id)) && (forall d <- DomainsOf(t.domains) :: Filled(d.id))
    && (forall d <- DatabasesOf(t.databases) :: Filled(d.id))
  }

  /** What each row of a site names as its site and its primary domain. */
  lemma {:induction false} RowNames(env: Env, t: Tables, site: Site, m: MapRow)
    requires m in RowsIn(env, t)(site)
    ensures SitePasses(env, t, site) && m.siteId == site.id
    ensures m.payload.primaryDomainId == PrimaryOf(DomainsFor(env, t, site)).id
  {
    RowOrigin(env, t, site, m);
    RowsShape(env, t, site);
    if m in DomainPart(env, t, site) {
      var d := Preimage(DomainsFor(env, t, site), DomainRowIn(env, t, site), m);
    } else if m in DatabasePart(env, t, site) {
      var d := Preimage(SortedDatabases(env, DatabasesFor(t, site)), DatabaseRowIn(env, t, site), m);
    } else {
      assert m == SiteRowIn(env, t, site);
    }
  }

  lemma {:induction false} RowIsFilled(env: Env, t: Tables, m: MapRow)
    requires LegacyOk(env, t) && m in MapRows(env, t) && IdsFilled(t)
    ensures RowFilled(m)
  {
    var site := SiteOfRow(env, t, m);
    RowNames(env, t, site, m);
    var primary := PrimaryFacts(env, t, site);
    RowHasSource(env, t, m);
    SourceIsFilled(t, m.kind, m.sourceId);
  }

  lemma {:induction false} SourceIsFilled(t: Tables, kind: Kind, id: string)
    requires IdsFilled(t) && HasSource(t, kind, id)
    ensures Filled(id)
  {
    match kind {
      case SiteKind => var s := Preimage(SitesOf(t.sites), SiteId, id);
      case DomainKind => var d := Preimage(DomainsOf(t.domains), DomainId, id);
      case DatabaseKind => var d := Preimage(DatabasesOf(t.databases), DatabaseId, id);
    }
  }

  lemma {:induction false} FilledRowsFillIds(env: Env, t: Tables)
    requires LegacyOk(env, t) && forall m <- MapRows(env, t) :: RowFilled(m)
    ensures IdsFilled(t)
  {
    forall s <- SitesOf(t.sites) ensures Filled(s.id) {
      ImageOf(SitesOf(t.sites), SiteId, s);
      var m := SourceHasRow(env, t, SiteKind, s.id);
    }
    forall d <- DomainsOf(t.domains) ensures Filled(d.id) {
      ImageOf(DomainsOf(t.domains), DomainId, d);
      var m := SourceHasRow(env, t, DomainKind, d.id);
    }
    forall d <- DatabasesOf(t.databases) ensures Filled(d.id) {
      ImageOf(DatabasesOf(t.databases), DatabaseId, d);
      var m := SourceHasRow(env, t, DatabaseKind, d.id);
    }
  }

  // ------------------------------------------------------------------- the theorem

  ghost predicate PathsShort(env: Env, t: Tables)
    requires LegacyOk(env, t)
  {
    forall m <- MapRows(env, t) :: m.kind == DomainKind && m.payload.filesRelPath.Some? ==> |m.payload.filesRelPath.value| <= MAX_PATH
  }

  lemma {:induction false} SitesGuarded(env: Env, t: Tables)
    requires LegacyOk(env, t)
    ensures forall s <- SitesOf(t.sites) ::
              var m := Find(MapRows(env, t), SiteKind, s.id); m.Some? && SiteGuard(t, s, m.value)
  {
    forall s <- SitesOf(t.sites)
      ensures var m := Find(MapRows(env, t), SiteKind, s.id); m.Some? && SiteGuard(t, s, m.value)
    {
      GuardOfSite(env, t, s);
    }
  }

  lemma {:induction false} DatabasesGuarded(env: Env, t: Tables)
    requires LegacyOk(env, t)
    ensures forall d <- DatabasesOf(t.databases) ::
              var m := Find(MapRows(env, t), DatabaseKind, d.id); m.Some? && DatabaseGuard(t, d, m.value)
  {
    forall d <- DatabasesOf(t.databases)
      ensures var m := Find(MapRows(env, t), DatabaseKind, d.id); m.Some? && DatabaseGuard(t, d, m.value)
    {
      GuardOfDatabase(env, t, d);
    }
  }

  lemma {:induction false} DomainsGuarded(env: Env, t: Tables)
    requires LegacyOk(env, t) && LongHexHash(env) && PathsShort(env, t)
    ensures forall s, d | s in SitesOf(t.sites) && d in DomainsOf(t.domains) && d.siteId == s.id ::
              var m := Find(MapRows(env, t), DomainKind, d.id); m.Some? && DomainGuard(t, s, d, m.value)
  {
    forall s, d | s in SitesOf(t.sites) && d in DomainsOf(t.domains) && d.siteId == s.id
      ensures var m := Find(MapRows(env, t), DomainKind, d.id); m.Some? && DomainGuard(t, s, d, m.value)
    {
      GuardOfDomain(env, t, s, d);
    }
  }

  lemma {:induction false} RowsFilled(env: Env, t: Tables)
    requires LegacyOk(env, t) && IdsFilled(t)
    ensures forall m <- MapRows(env, t) :: RowFilled(m)
  {
    forall m <- MapRows(env, t) ensures RowFilled(m) { RowIsFilled(env, t, m); }
  }

  /** The rows of a map without blockers pass the guard exactly when no id is blank and no staged path is
      longer than 255 characters: the two things the mapper does not look at. */
  lemma {:induction false} GuardAsksTwoMore(env: Env, t: Tables)
    requires LegacyOk(env, t) && LongHexHash(env)
    ensures RowsGuarded(t, MapRows(env, t)) <==> IdsFilled(t) && PathsShort(env, t)
  {
    if IdsFilled(t) && PathsShort(env, t) {
      SitesGuarded(env, t);
      DatabasesGuarded(env, t);
      DomainsGuarded(env, t);
      RowsFilled(env, t);
    }
    if RowsGuarded(t, MapRows(env, t)) {
      FilledRowsFillIds(env, t);
      GuardedPathsAreShort(env, t);
    }
  }

  lemma {:induction false} GuardedPathsAreShort(env: Env, t: Tables)
    requires LegacyOk(env, t) && LongHexHash(env) && RowsGuarded(t, MapRows(env, t))
    ensures PathsShort(env, t)
  {
    forall m <- MapRows(env, t) | m.kind == DomainKind && m.payload.filesRelPath.Some?
      ensures |m.payload.filesRelPath.value| <= MAX_PATH
    {
      RowHasSource(env, t, m);
      var d := Preimage(DomainsOf(t.domains), DomainId, m.sourceId);
      var site := OwnerExists(t, d.siteId);
      GuardOfDomain(env, t, site, d);
      RowKeysDistinct(env, t);
      FindUnique(MapRows(env, t), m);
    }
  }

  // ------------------------------------------------------------ what is enough to fail

  lemma {:induction false} BlankSiteIsRefused(env: Env, t: Tables, site: Site)
    requires LegacyOk(env, t) && LongHexHash(env) && site in SitesOf(t.sites) && !Filled(site.id)
    ensures !RowsGuarded(t, MapRows(env, t))
  {
    GuardAsksTwoMore(env, t);
  }

  lemma {:induction false} LongDomainIsRefused(env: Env, t: Tables, site: Site, d: Domain)
    requires LegacyOk(env, t) && LongHexHash(env) && site in SitesOf(t.sites) && d in DomainsOf(t.domains) && d.siteId == site.id
    requires MappedPath(site, RawPath(site, d)).Some? && |MappedPath(site, RawPath(site, d)).value| > MAX_PATH
    ensures !RowsGuarded(t, MapRows(env, t))
  {
    RowOfDomain(env, t, site, d);
    ShareOfDomain(env, t, site, d);
    assert DomainRowIn(env, t, site)(d).payload.filesRelPath == MappedPath(site, RawPath(site, d));
    assert !PathsShort(env, t);
    GuardAsksTwoMore(env, t);
  }
}
