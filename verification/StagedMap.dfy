/** From the legacy map to the staging table and on to the migrated database: the rows as persisted
    (migrations/release/mapper.ts:995-1017, 1090-1139) and as the table copy reads them. */
module StagedMap {
  import opened Common
  import opened LegacySource
  import opened SitePlan
  import opened LegacyMap
  import opened MapCoverage
  import opened DomainCentricMigration
  import opened FinalInvariants
  import MigrationTheorem
  import SqlText
  import StagingTable

  // ------------------------------------------------------------------- one row

  function KindName(kind: Kind): string {
    match kind case SiteKind => "SITE" case DomainKind => "DOMAIN" case DatabaseKind => "DATABASE"
  }

  function KindNamed(name: string): Kind {
    if name == "SITE" then SiteKind else if name == "DOMAIN" then DomainKind else DatabaseKind
  }

  function TextValue(t: Text): SqlText.Value { if t.Some? then SqlText.Text(t.value) else SqlText.Null }
  function PortValue(n: Num): SqlText.Value { if n.Whole? then SqlText.Int(n.n) else SqlText.Null }
  function ValueText(v: SqlText.Value): Text { if v.Text? then Some(v.s) else None }
  function ValueString(v: SqlText.Value): string { if v.Text? then v.s else "" }
  function ValuePort(v: SqlText.Value): Num { if v.Int? then Whole(v.n) else NoNumber }

  /** What all rows of one envelope share. */
  datatype Stamp = Stamp(checksum: string, fingerprint: string)

  /** expectedPersistedMapRow, column by column. */
  function Persisted(stamp: Stamp, m: MapRow): StagingTable.Row {
    [SqlText.Int(1), SqlText.Text(KindName(m.kind)), SqlText.Text(m.sourceId), SqlText.Text(m.siteId), TextValue(m.domainId),
     TextValue(m.databaseId), SqlText.Text(m.payload.primaryDomainId), SqlText.Text(stamp.checksum), SqlText.Text(stamp.fingerprint),
     TextValue(m.payload.preset), TextValue(m.payload.appStatus), TextValue(m.payload.appErrorMessage),
     TextValue(m.payload.filesRelPath), TextValue(m.payload.phpVersion), TextValue(m.payload.phpPoolCustom),
     TextValue(m.payload.runtimeKey), PortValue(m.payload.appPort), TextValue(m.payload.purpose)]
  }

  /** What the table copy reads back from a row. */
  function ReadBack(row: StagingTable.Row): MapRow {
    MapRow(KindNamed(ValueString(row[1])), ValueString(row[2]), ValueString(row[3]), ValueText(row[4]), ValueText(row[5]),
           Payload(ValueString(row[6]), ValueText(row[9]), ValueText(row[10]), ValueText(row[11]), ValueText(row[12]),
                   ValueText(row[13]), ValueText(row[14]), ValueText(row[15]), ValuePort(row[16]), ValueText(row[17])))
  }

  function PersistedWith(stamp: Stamp): MapRow -> StagingTable.Row { (m: MapRow) => Persisted(stamp, m) }

  lemma {:induction false} KindsHaveNames(kind: Kind)
    ensures KindNamed(KindName(kind)) == kind
  {
  }

  lemma {:induction false} KindsAreNamed()
    ensures KindName(SiteKind) == "SITE" && KindName(DomainKind) == "DOMAIN" && KindName(DatabaseKind) == "DATABASE"
  {
  }

  lemma {:induction false} NamesTellKinds(a: Kind, b: Kind)
    requires KindName(a) == KindName(b)
    ensures a == b
  {
    KindsHaveNames(a);
    KindsHaveNames(b);
  }

  /** A row with a usable port comes back from the table as it was. */
  lemma {:induction false} RowReadsBack(stamp: Stamp, m: MapRow)
    requires ValidPort(m.payload.appPort)
    ensures ReadBack(Persisted(stamp, m)) == m
  {
    KindsHaveNames(m.kind);
  }

  /** Text, or NULL for none. */
  function OrNull(t: Text): SqlText.Value { match t case Some(text) => SqlText.Text(text) case None => SqlText.Null }

  predicate Holds(v: SqlText.Value, t: Text) { v == OrNull(t) }

  /** What the columns of a row hold, in their order: contract and kind, whose row it is, where it comes from, */
  lemma {:induction false} KeyColumnsHold(stamp: Stamp, m: MapRow)
    ensures var held := Persisted(stamp, m);
            && held[0] == SqlText.Int(1) && held[1] == SqlText.Text(KindName(m.kind)) && held[2] == SqlText.Text(m.sourceId)
            && held[3] == SqlText.Text(m.siteId)
  {
  }

  lemma {:induction false} OriginColumnsHold(stamp: Stamp, m: MapRow)
    ensures var held := Persisted(stamp, m);
            && Holds(held[4], m.domainId) && Holds(held[5], m.databaseId) && held[6] == SqlText.Text(m.payload.primaryDomainId)
            && held[7] == SqlText.Text(stamp.checksum) && held[8] == SqlText.Text(stamp.fingerprint)
  {
  }

  /** and the application. */
  lemma {:induction false} ApplicationColumnsHold(stamp: Stamp, m: MapRow)
    ensures var held, p := Persisted(stamp, m), m.payload;
            && Holds(held[9], p.preset) && Holds(held[10], p.appStatus) && Holds(held[11], p.appErrorMessage)
            && Holds(held[12], p.filesRelPath) && Holds(held[13], p.phpVersion) && Holds(held[14], p.phpPoolCustom)
            && Holds(held[15], p.runtimeKey) && (p.appPort.Whole? ==> held[16] == SqlText.Int(p.appPort.n)) && Holds(held[17], p.purpose)
  {
  }

  // ------------------------------------------------------------------ the table

  lemma {:induction false} SamePersistedKey(stamp: Stamp, m: MapRow, n: MapRow)
    requires StagingTable.KeyOf(Persisted(stamp, m)) == StagingTable.KeyOf(Persisted(stamp, n))
    ensures KeyOf(m) == KeyOf(n)
  {
    NamesTellKinds(m.kind, n.kind);
  }

  /** The rows of a map never violate the staging table's primary key. */
  lemma {:induction false} PersistedKeysDistinct(stamp: Stamp, rows: seq<MapRow>)
    requires Distinct(Map(rows, KeyOf))
    ensures StagingTable.DistinctKeys(Map(rows, PersistedWith(stamp)))
  {
    var persisted := Map(rows, PersistedWith(stamp));
    forall i, j | 0 <= i < j < |persisted| ensures StagingTable.KeyOf(persisted[i]) != StagingTable.KeyOf(persisted[j]) {
      KeysStayApart(stamp, rows, i, j);
    }
  }

  lemma {:induction false} KeysStayApart(stamp: Stamp, rows: seq<MapRow>, i: nat, j: nat)
    requires Distinct(Map(rows, KeyOf)) && i < j < |rows|
    ensures StagingTable.KeyOf(Persisted(stamp, rows[i])) != StagingTable.KeyOf(Persisted(stamp, rows[j]))
  {
    var keys := Map(rows, KeyOf);
    assert keys[i] != keys[j];
    if StagingTable.KeyOf(Persisted(stamp, rows[i])) == StagingTable.KeyOf(Persisted(stamp, rows[j])) {
      SamePersistedKey(stamp, rows[i], rows[j]);
    }
  }

  lemma {:induction false} DomainPartPort(env: Env, t: Tables, site: Site, m: MapRow)
    requires SitePasses(env, t, site) && SiteFits(env, site) && m in DomainPart(env, t, site)
    requires forall d <- DomainsOf(t.domains) :: DomainFits(env, d)
    ensures ValidPort(m.payload.appPort)
  {
    var d := Preimage(DomainsFor(env, t, site), DomainRowIn(env, t, site), m);
    OwnDomain(env, t, site, d);
  }

  lemma {:induction false} DatabasePartPort(env: Env, t: Tables, site: Site, m: MapRow)
    requires SitePasses(env, t, site) && m in DatabasePart(env, t, site)
    ensures ValidPort(m.payload.appPort)
  {
    var d := Preimage(SortedDatabases(env, DatabasesFor(t, site)), DatabaseRowIn(env, t, site), m);
  }

  lemma {:induction false} SitePorts(env: Env, t: Tables, site: Site, m: MapRow)
    requires SitePasses(env, t, site) && SiteFits(env, site) && m in RowsIn(env, t)(site)
    requires forall d <- DomainsOf(t.domains) :: DomainFits(env, d)
    ensures ValidPort(m.payload.appPort)
  {
    RowsShape(env, t, site);
    if m in DomainPart(env, t, site) {
      DomainPartPort(env, t, site, m);
    } else if m in DatabasePart(env, t, site) {
      DatabasePartPort(env, t, site, m);
    } else {
      assert m == SiteRowIn(env, t, site);
    }
  }

  lemma {:induction false} RowPorts(env: Env, t: Tables, m: MapRow)
    requires LegacyOk(env, t) && m in MapRows(env, t)
    ensures ValidPort(m.payload.appPort)
  {
    var ordered := OrderedSites(env, t);
    SamePermutation(SitesOf(t.sites), ordered);
    SamePermutation(Concat(ordered, RowsIn(env, t)), MapRows(env, t));
    var site := PieceOf(ordered, RowsIn(env, t), m);
    assert SitePassesIn(env, t)(site) && SiteFitsIn(env)(site);
    forall d <- DomainsOf(t.domains) ensures DomainFits(env, d) { assert DomainFitsIn(env)(d); }
    SitePorts(env, t, site, m);
  }

  /** The table holds the rows of the map, in any order. */
  ghost predicate HoldsMap(stamp: Stamp, rows: seq<MapRow>, table: seq<StagingTable.Row>) {
    Elements(table) == Elements(Map(rows, PersistedWith(stamp))) && StagingTable.DistinctKeys(table)
  }

  lemma {:induction false} ReadBackMembers(stamp: Stamp, rows: seq<MapRow>, table: seq<StagingTable.Row>, m: MapRow)
    requires HoldsMap(stamp, rows, table) && forall r <- rows :: ValidPort(r.payload.appPort)
    ensures m in Map(table, ReadBack) <==> m in rows
  {
    if m in rows {
      RowReadsBack(stamp, m);
      ImageOf(rows, PersistedWith(stamp), m);
      assert Persisted(stamp, m) in Elements(table);
      ImageOf(table, ReadBack, Persisted(stamp, m));
    }
    if m in Map(table, ReadBack) {
      var row := Preimage(table, ReadBack, m);
      assert row in Elements(Map(rows, PersistedWith(stamp)));
      var r := Preimage(rows, PersistedWith(stamp), row);
      RowReadsBack(stamp, r);
    }
  }

  lemma {:induction false} FoundIsMember(rows: seq<MapRow>, kind: Kind, id: string)
    ensures Find(rows, kind, id).Some? ==> Find(rows, kind, id).value in rows && KeyOf(Find(rows, kind, id).value) == (kind, id)
    ensures Find(rows, kind, id) == None ==> forall r <- rows :: KeyOf(r) != (kind, id)
  {
    if rows != [] {
      FoundIsMember(rows[1..], kind, id);
      assert rows == [rows[0]] + rows[1..];
    }
  }

  /** With distinct keys a lookup depends on the contents only. */
  lemma {:induction false} FindAgrees(a: seq<MapRow>, b: seq<MapRow>, kind: Kind, id: string)
    requires Distinct(Map(a, KeyOf)) && forall m :: m in a <==> m in b
    ensures Find(a, kind, id) == Find(b, kind, id)
  {
    FoundIsMember(a, kind, id);
    FoundIsMember(b, kind, id);
    if Find(b, kind, id).Some? {
      FindUnique(a, Find(b, kind, id).value);
    }
  }

  lemma {:induction false} ConcatAgrees<S, T>(s: seq<S>, f: S -> seq<T>, g: S -> seq<T>)
    requires forall x <- s :: f(x) == g(x)
    ensures Concat(s, f) == Concat(s, g)
  {
    if s != [] {
      ConcatAgrees(s[..|s| - 1], f, g);
    }
  }

  /** Copying from the table is copying from the map. */
  lemma {:induction false} CopyFromTable(env: Env, t: Tables, stamp: Stamp, table: seq<StagingTable.Row>)
    requires LegacyOk(env, t) && HoldsMap(stamp, MapRows(env, t), table)
    ensures Copy(t, Map(table, ReadBack)) == Copy(t, MapRows(env, t))
  {
    var rows, back := MapRows(env, t), Map(table, ReadBack);
    RowKeysDistinct(env, t);
    forall r <- rows ensures ValidPort(r.payload.appPort) { RowPorts(env, t, r); }
    forall m ensures m in rows <==> m in back { ReadBackMembers(stamp, rows, table, m); }
    forall d <- DomainsOf(t.domains) ensures DomainCopies(t, back)(d) == DomainCopies(t, rows)(d) {
      FindAgrees(rows, back, DomainKind, d.id);
    }
    forall d <- DatabasesOf(t.databases) ensures DatabaseCopies(back)(d) == DatabaseCopies(rows)(d) {
      FindAgrees(rows, back, DatabaseKind, d.id);
    }
    ConcatAgrees(DomainsOf(t.domains), DomainCopies(t, back), DomainCopies(t, rows));
    ConcatAgrees(DatabasesOf(t.databases), DatabaseCopies(back), DatabaseCopies(rows));
  }

  // --------------------------------------------------------------- end to end

  /** applyLegacyMigrationMap: build the map and, when it has no blockers, persist it. */
  method StageInstallation(db: StagingTable.StagingDatabase, env: Env, t: Tables, stamp: Stamp, changedMeanwhile: bool, sourceUnchanged: bool)
    returns (outcome: StagingTable.Outcome)
    requires db.Valid()
    modifies db
    ensures db.Valid()
    ensures outcome == StagingTable.NothingToDo || outcome == StagingTable.Written ==>
              LegacyOk(env, t) && !changedMeanwhile
              && (if db.table.Some? then HoldsMap(stamp, MapRows(env, t), db.table.value.rows) else MapRows(env, t) == [])
    ensures outcome == StagingTable.Refused || outcome == StagingTable.Threw ==> db.table == old(db.table)
  {
    var rows, blockers := BuildLegacyMap(env, t, changedMeanwhile);
    if blockers != [] { return StagingTable.Refused; }
    RowKeysDistinct(env, t);
    PersistedKeysDistinct(stamp, rows);
    var persisted := Map(rows, PersistedWith(stamp));
    StagingTable.SuccessMeansEqual(db.table, persisted, sourceUnchanged);
    outcome := db.Apply(persisted, sourceUnchanged);
  }

  /** Whatever was staged successfully migrates to a database that passes every final check. */
  lemma {:induction false} StagedMeansChecked(env: Env, check: Env, t: Tables, stamp: Stamp, table: seq<StagingTable.Row>)
    requires LegacyOk(env, t) && HoldsMap(stamp, MapRows(env, t), table)
    requires MigrationTheorem.SameNames(env, check) && MigrationTheorem.LooserSockets(env, check)
    ensures FinalOk(check, Copy(t, Map(table, ReadBack)), BaselineOf(t))
  {
    CopyFromTable(env, t, stamp, table);
    MigrationTheorem.MappedMeansChecked(env, check, t);
  }
}
