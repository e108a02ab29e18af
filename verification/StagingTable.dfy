/** Persisting a validated legacy map into its staging table (migrations/release/mapper.ts:1053-1139). */
module StagingTable {
  import opened Common
  import opened SqlText

  const TABLE := "_meowbox_domain_migration_map"
  const WIDTH: nat := 18

  /** MAP_TABLE_COLUMNS, by position. */
  function ColumnName(i: nat): string {
    match i
    case 0 => "contract_version" case 1 => "row_kind" case 2 => "source_id" case 3 => "site_id"
    case 4 => "site_domain_id" case 5 => "database_id" case 6 => "primary_site_domain_id"
    case 7 => "source_db_checksum" case 8 => "source_fingerprint" case 9 => "preset"
    case 10 => "app_status" case 11 => "app_error_message" case 12 => "files_rel_path"
    case 13 => "php_version" case 14 => "php_pool_custom" case 15 => "runtime_key"
    case 16 => "app_port" case _ => "purpose"
  }

  function Columns(): (r: seq<string>)
    ensures |r| == WIDTH
  {
    seq(WIDTH, i requires 0 <= i => ColumnName(i))
  }

  lemma {:induction false} ColumnsAreNamed()
    ensures Columns()[..9]
         == ["contract_version", "row_kind", "source_id", "site_id", "site_domain_id", "database_id", "primary_site_domain_id",
             "source_db_checksum", "source_fingerprint"]
    ensures Columns()[9..]
         == ["preset", "app_status", "app_error_message", "files_rel_path", "php_version", "php_pool_custom", "runtime_key",
             "app_port", "purpose"]
  {
  }

  /** One persisted row: a value per column, in the order of Columns. */
  type Row = row: seq<Value> | |row| == WIDTH witness seq(WIDTH, i => Null)

  /** The primary key ("row_kind", "source_id"). */
  function KeyOf(row: Row): (Value, Value) { (row[1], row[2]) }

  ghost predicate DistinctKeys(rows: seq<Row>) {
    forall i, j | 0 <= i < j < |rows| :: KeyOf(rows[i]) != KeyOf(rows[j])
  }

  /** `conforms` is the outcome of mapTableContractDiagnostics: names, types, NOT NULL and primary key. */
  datatype Staging = Staging(conforms: bool, rows: seq<Row>)

  datatype Outcome = Refused | NothingToDo | Written | Threw

  // ------------------------------------------------------------ specification

  /** An existing table is tolerated only when it conforms and holds exactly the validated rows. */
  ghost predicate Consistent(table: Option<Staging>, rows: seq<Row>) {
    table.Some? ==> table.value.conforms && Elements(table.value.rows) == Elements(rows)
  }

  predicate Writable(rows: seq<Row>) {
    forall row <- rows :: forall v <- row :: Quotable(v)
  }

  ghost function Applied(table: Option<Staging>, rows: seq<Row>, sourceUnchanged: bool): (Option<Staging>, Outcome) {
    if !sourceUnchanged || !Consistent(table, rows) then (table, Refused)
    else if table.Some? || rows == [] then (table, NothingToDo)
    else if !Writable(rows) then (None, Threw)
    else (Some(Staging(true, rows)), Written)
  }

  /** What the primary key of a conforming table guarantees. */
  ghost predicate Keyed(table: Option<Staging>) {
    table.Some? && table.value.conforms ==> DistinctKeys(table.value.rows)
  }

  // ------------------------------------------------------------------- theorems

  /** A success leaves exactly the validated rows, or no table when there are none. */
  lemma {:induction false} SuccessMeansEqual(table: Option<Staging>, rows: seq<Row>, sourceUnchanged: bool)
    requires Keyed(table) && DistinctKeys(rows)
    ensures var (after, outcome) := Applied(table, rows, sourceUnchanged);
            && Keyed(after)
            && (outcome == NothingToDo || outcome == Written ==>
                  (after == None && rows == []) || (after.Some? && after.value.conforms && Elements(after.value.rows) == Elements(rows)
                                                    && |after.value.rows| == |rows|))
            && (outcome == Refused || outcome == Threw ==> after == table)
  {
    if table.Some? && Consistent(table, rows) {
      SameSizeWhenEqual(table.value.rows, rows);
    }
  }

  /** Applying again over an unchanged source writes nothing. */
  lemma {:induction false} SecondApplyWritesNothing(table: Option<Staging>, rows: seq<Row>)
    requires Applied(table, rows, true).1 == NothingToDo || Applied(table, rows, true).1 == Written
    ensures var after := Applied(table, rows, true).0;
            Applied(after, rows, true) == (after, NothingToDo)
  {
  }

  /** Any stale, foreign or partial table is refused and left as it is. */
  lemma {:induction false} OddTableIsRefused(table: Staging, rows: seq<Row>, sourceUnchanged: bool)
    requires !table.conforms
             || (exists row <- table.rows :: row !in rows)
             || (exists row <- rows :: row !in table.rows)
    ensures Applied(Some(table), rows, sourceUnchanged) == (Some(table), Refused)
  {
    assert forall row :: row in Elements(rows) <==> row in rows;
    assert forall row :: row in Elements(table.rows) <==> row in table.rows;
  }

  /** When an apply writes and when it does not have to: a missing table is created from rows without NUL, an
      equal one is left alone, and nothing is written once the source has changed. */
  lemma {:induction false} ApplyDecides(table: Option<Staging>, rows: seq<Row>, sourceUnchanged: bool)
    ensures var answer := Applied(table, rows, sourceUnchanged);
            && (!sourceUnchanged ==> answer == (table, Refused))
            && (sourceUnchanged && table == None && rows == [] ==> answer == (None, NothingToDo))
            && (sourceUnchanged && table == None && rows != [] && (forall row <- rows, v <- row :: v.Text? ==> '\0' !in v.s) ==>
                  answer == (Some(Staging(true, rows)), Written))
            && (sourceUnchanged && table.Some? && table.value.conforms && (forall row :: row in table.value.rows <==> row in rows) ==>
                  answer == (table, NothingToDo))
  {
    forall row <- rows, v <- row ensures Quotable(v) <==> (v.Text? ==> '\0' !in v.s) {}
    if table.Some? && forall row :: row in table.value.rows <==> row in rows {
      assert Elements(table.value.rows) == Elements(rows);
    }
  }

  lemma {:induction false} KeysMakeDistinct(rows: seq<Row>)
    requires DistinctKeys(rows)
    ensures Distinct(rows) && |Elements(rows)| == |rows|
  {
    DistinctSize(rows);
  }

  lemma {:induction false} SameSizeWhenEqual(a: seq<Row>, b: seq<Row>)
    requires DistinctKeys(a) && DistinctKeys(b) && Elements(a) == Elements(b)
    ensures |a| == |b|
  {
    KeysMakeDistinct(a);
    KeysMakeDistinct(b);
  }

  /** The counting argument behind MAP_TABLE_INCOMPLETE: same size and contained means equal. */
  lemma {:induction false} ContainedAndSameSize(a: seq<Row>, b: seq<Row>)
    requires DistinctKeys(a) && DistinctKeys(b) && Elements(a) <= Elements(b) && |a| == |b|
    ensures Elements(a) == Elements(b)
  {
    KeysMakeDistinct(a);
    KeysMakeDistinct(b);
    SubsetOfSameSize(Elements(a), Elements(b));
  }

  lemma {:induction false} SubsetOfSameSize<T>(a: set<T>, b: set<T>)
    requires a <= b && |a| == |b|
    ensures a == b
  {
    if a != b {
      var x :| x in b && x !in a;
      assert a <= b - {x};
      SubsetSize(a, b - {x});
    }
  }

  lemma {:induction false} SubsetSize<T>(a: set<T>, b: set<T>)
    requires a <= b
    ensures |a| <= |b|
  {
    if a != {} {
      var x :| x in a;
      SubsetSize(a - {x}, b - {x});
    }
  }

  // --------------------------------------------------------------- the database

  function RowsOf(inserts: seq<Insert>): Option<seq<Row>> {
    if inserts == [] then Some([])
    else if inserts[0].table != TABLE || inserts[0].columns != Columns() || |inserts[0].values| != WIDTH then None
    else match RowsOf(inserts[1..])
      case None => None
      case Some(more) =>
        var row: Row := inserts[0].values;
        Some([row] + more)
  }

  lemma {:induction false} InsertsGiveRows(rows: seq<Row>)
    ensures RowsOf(Inserts(TABLE, Columns(), rows)) == Some(rows)
  {
    if rows != [] {
      InsertsGiveRows(rows[1..]);
      assert rows == [rows[0]] + rows[1..];
    }
  }

  class StagingDatabase {
    var table: Option<Staging>

    ghost predicate Valid()
      reads this
    {
      Keyed(table)
    }

    method IndexByKey(rows: seq<Row>) returns (expected: map<(Value, Value), Row>)
      requires DistinctKeys(rows)
      ensures forall k <- expected :: expected[k] in rows && KeyOf(expected[k]) == k
      ensures forall row <- rows :: KeyOf(row) in expected && expected[KeyOf(row)] == row
      ensures |expected| == |rows|
    {
      expected := map[];
      for i := 0 to |rows|
        invariant forall k <- expected :: expected[k] in rows[..i] && KeyOf(expected[k]) == k
        invariant forall j | 0 <= j < i :: KeyOf(rows[j]) in expected && expected[KeyOf(rows[j])] == rows[j]
        invariant |expected| == i
      {
        forall j | 0 <= j < i ensures KeyOf(rows[j]) != KeyOf(rows[i]) {}
        expected := expected[KeyOf(rows[i]) := rows[i]];
      }
    }

    /** mapTableDiagnostics: is the existing table exactly what this map would write? */
    method Diagnose(rows: seq<Row>) returns (clean: bool)
      requires Valid() && DistinctKeys(rows)
      ensures clean <==> Consistent(table, rows)
    {
      if table == None { return true; }
      if !table.value.conforms { return false; }
      var existing := table.value.rows;
      var expected := IndexByKey(rows);
      var stale := false;
      for i := 0 to |existing|
        invariant stale <==> exists j | 0 <= j < i :: existing[j] !in rows
      {
        var key := KeyOf(existing[i]);
        if key !in expected || expected[key] != existing[i] {
          assert existing[i] !in rows;
          stale := true;
        } else {
          assert existing[i] in rows;
        }
      }
      clean := !stale && |existing| == |expected|;
      if Elements(existing) == Elements(rows) {
        SameSizeWhenEqual(existing, rows);
        forall j | 0 <= j < |existing| ensures existing[j] in rows {
          assert existing[j] in Elements(existing);
        }
      }
      if clean {
        assert Elements(existing) <= Elements(rows);
        ContainedAndSameSize(existing, rows);
      }
    }

    /** What sqlite3 does with the script: one transaction over the statements it reads. */
    method Execute(script: string) returns (ok: bool)
      requires Valid() && table == None
      modifies this
      ensures Valid()
      ensures var tokens := Lex(script);
              var rows := if tokens.Some? && ReadScript(tokens.value).Some? then RowsOf(ReadScript(tokens.value).value) else None;
              if rows.Some? && DistinctKeys(rows.value) then ok && table == Some(Staging(true, rows.value))
              else !ok && table == None
    {
      var tokens := Lex(script);
      if tokens == None { return false; }
      var inserts := ReadScript(tokens.value);
      if inserts == None { return false; }
      var rows := RowsOf(inserts.value);
      if rows == None { return false; }
      var unique := PrimaryKeyHolds(rows.value);
      if !unique { return false; }
      table := Some(Staging(true, rows.value));
      ok := true;
    }

    /** The PRIMARY KEY constraint, insert by insert. */
    method PrimaryKeyHolds(rows: seq<Row>) returns (ok: bool)
      ensures ok <==> DistinctKeys(rows)
    {
      for i := 0 to |rows|
        invariant DistinctKeys(rows[..i])
      {
        if exists j | 0 <= j < i :: KeyOf(rows[j]) == KeyOf(rows[i]) { return false; }
      }
      assert rows[..|rows|] == rows;
      ok := true;
    }

    /** applyLegacyMigrationMap for a report without blockers. */
    method Apply(rows: seq<Row>, sourceUnchanged: bool) returns (outcome: Outcome)
      requires Valid() && DistinctKeys(rows)
      modifies this
      ensures Valid()
      ensures (table, outcome) == Applied(old(table), rows, sourceUnchanged)
    {
      if !sourceUnchanged { return Refused; }
      var clean := Diagnose(rows);
      if !clean { return Refused; }
      if table == None && rows == [] { return NothingToDo; }
      var existingCount := if table == None then 0 else |table.value.rows|;
      if table.Some? { SameSizeWhenEqual(table.value.rows, rows); }
      if existingCount == |rows| { return NothingToDo; }
      if !Writable(rows) { return Threw; }
      ColumnsAreNames();
      ScriptReadsBack(TABLE, Columns(), rows);
      InsertsGiveRows(rows);
      var ok := Execute(InsertScript(TABLE, Columns(), rows));
      assert ok;
      outcome := Written;
    }
  }

  lemma {:induction false} EarlyColumnIsName(i: nat)
    requires i < 9
    ensures Nameable(ColumnName(i))
  {
  }

  lemma {:induction false} LateColumnIsName(i: nat)
    requires i >= 9
    ensures Nameable(ColumnName(i))
  {
  }

  lemma {:induction false} ColumnsAreNames()
    ensures Nameable(TABLE) && forall x <- Columns() :: Nameable(x)
  {
    forall i | 0 <= i < WIDTH ensures Nameable(Columns()[i]) {
      if i < 9 { EarlyColumnIsName(i); } else { LateColumnIsName(i); }
    }
  }
}
