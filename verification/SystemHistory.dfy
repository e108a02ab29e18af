/** Acceptance of the stored system-migration history (migrations/system-history.ts). */
module SystemHistory {
  import opened Common

  datatype Artifact = Artifact(id: string, checksum: string)
  datatype Record = Record(id: string, checksum: string, ok: bool, errorLog: Option<string>)

  datatype Retryable = Retryable(fragments: seq<string>, reason: string)
  datatype Alias = Alias(
    id: string, currentChecksum: string, storedChecksums: seq<string>,
    reason: string, retryable: Option<Retryable>)
  datatype Retired =
    | RetiredSuccess(id: string, storedChecksum: string, reason: string)
    | SupersededFailure(id: string, storedChecksum: string, errorLogSha256: string,
                        byId: string, byChecksum: string, reason: string)
  datatype Contract = Contract(aliases: seq<Alias>, retired: seq<Retired>)

  datatype Kind = ChecksumAliasKind | RetiredKind | SupersededKind | RetryableKind
  datatype Accepted = Accepted(id: string, kind: Kind, reason: string)
  datatype Verdict = Refused | AcceptedHistory(legacy: seq<Accepted>)

  /** Everything a row is judged against: the discovered artifacts, the reviewed contract, all
      stored rows, and the SHA-256 function. */
  datatype Context = Context(current: seq<Artifact>, contract: Contract, applied: seq<Record>, sha256: string -> string)

  // ------------------------------------------------------------ declarative rules

  ghost predicate UniqueIds<T>(items: seq<T>, id: T -> string) {
    && (forall x <- items :: id(x) != "")
    && (forall i, j | 0 <= i < j < |items| :: id(items[i]) != id(items[j]))
  }

  function ArtifactId(a: Artifact): string { a.id }
  function RecordId(r: Record): string { r.id }
  function AliasId(a: Alias): string { a.id }
  function RetiredId(r: Retired): string { r.id }

  predicate IsSha256(s: string) {
    |s| == 64 && forall c <- s :: 'a' <= c <= 'f' || '0' <= c <= '9'
  }

  predicate Includes(text: string, fragment: string) {
    exists i | 0 <= i <= |text| :: fragment <= text[i..]
  }

  predicate AliasOk(current: seq<Artifact>, a: Alias) {
    && IsSha256(a.currentChecksum)
    && a.storedChecksums != []
    && (forall i, j | 0 <= i < j < |a.storedChecksums| :: a.storedChecksums[i] != a.storedChecksums[j])
    && (a.retryable.Some? ==> a.retryable.value.fragments != [] && "" !in a.retryable.value.fragments)
    && Artifact(a.id, a.currentChecksum) in current
  }

  predicate RetiredOk(current: seq<Artifact>, r: Retired) {
    && IsSha256(r.storedChecksum)
    && (forall c <- current :: c.id != r.id)
    && (r.SupersededFailure? ==>
          IsSha256(r.errorLogSha256) && IsSha256(r.byChecksum) && exists c <- current :: c.id == r.byId)
  }

  ghost predicate ContractOk(contract: Contract, current: seq<Artifact>) {
    && UniqueIds(contract.aliases, AliasId)
    && UniqueIds(contract.retired, RetiredId)
    && (forall a <- contract.aliases, r <- contract.retired :: a.id != r.id)
    && (forall a <- contract.aliases :: AliasOk(current, a))
    && (forall r <- contract.retired :: RetiredOk(current, r))
  }

  ghost predicate PlainSuccess(x: Context, s: Record) {
    s.ok && s.errorLog == None && Artifact(s.id, s.checksum) in x.current
  }

  ghost predicate BoundAlias(x: Context, s: Record, a: Alias) {
    && a in x.contract.aliases && a.id == s.id
    && s.ok && s.errorLog == None
    && Artifact(s.id, a.currentChecksum) in x.current
    && s.checksum != a.currentChecksum && s.checksum in a.storedChecksums
  }

  ghost predicate ExactRetryable(x: Context, s: Record, a: Alias) {
    && a in x.contract.aliases && a.id == s.id && a.retryable.Some?
    && !s.ok && s.errorLog.Some?
    && Artifact(s.id, a.currentChecksum) in x.current && s.checksum in a.storedChecksums
    && forall f <- a.retryable.value.fragments :: Includes(s.errorLog.value, f)
  }

  ghost predicate RetiredAsSuccess(x: Context, s: Record, r: Retired) {
    && r in x.contract.retired && r.RetiredSuccess? && r.id == s.id
    && s.checksum == r.storedChecksum && s.ok && s.errorLog == None
  }

  ghost predicate ProvenSuperseded(x: Context, s: Record, r: Retired) {
    && r in x.contract.retired && r.SupersededFailure? && r.id == s.id
    && s.checksum == r.storedChecksum
    && !s.ok && s.errorLog.Some? && x.sha256(s.errorLog.value) == r.errorLogSha256
    && Record(r.byId, r.byChecksum, true, None) in x.applied
  }

  /** Row `s` may stay in history as the legacy exception `e`. */
  ghost predicate LegacyAs(x: Context, s: Record, e: Accepted) {
    e.id == s.id &&
    match e.kind
    case ChecksumAliasKind => exists a :: BoundAlias(x, s, a) && e.reason == a.reason
    case RetryableKind => exists a :: ExactRetryable(x, s, a) && e.reason == a.retryable.value.reason
    case RetiredKind => exists r :: RetiredAsSuccess(x, s, r) && e.reason == r.reason
    case SupersededKind => exists r :: ProvenSuperseded(x, s, r) && e.reason == r.reason
  }

  ghost predicate RowOk(x: Context, s: Record) {
    PlainSuccess(x, s) || exists e :: LegacyAs(x, s, e)
  }

  ghost predicate Acceptable(x: Context) {
    && UniqueIds(x.current, ArtifactId) && UniqueIds(x.applied, RecordId)
    && ContractOk(x.contract, x.current)
    && forall s <- x.applied :: RowOk(x, s)
  }

  /** The stored rows that are not plain successes, in input order. */
  ghost function NonPlain(x: Context, rows: seq<Record>): seq<Record> {
    if rows == [] then []
    else NonPlain(x, rows[..|rows| - 1])
         + (if PlainSuccess(x, rows[|rows| - 1]) then [] else [rows[|rows| - 1]])
  }

  /** The published list names each non-plain row once, in input order, with its rule. */
  ghost predicate Names(x: Context, rows: seq<Record>, legacy: seq<Accepted>) {
    var odd := NonPlain(x, rows);
    |legacy| == |odd| && forall i | 0 <= i < |odd| :: LegacyAs(x, odd[i], legacy[i])
  }

  // ------------------------------------------------------------- implementation

  method AssertUniqueIds<T>(items: seq<T>, id: T -> string) returns (ok: bool)
    ensures ok <==> UniqueIds(items, id)
  {
    var seen: set<string> := {};
    for i := 0 to |items|
      invariant seen == set x <- items[..i] :: id(x)
      invariant UniqueIds(items[..i], id)
    {
      assert items[..i + 1] == items[..i] + [items[i]];
      if id(items[i]) == "" || id(items[i]) in seen {
        return false;
      }
      seen := seen + {id(items[i])};
    }
    assert items[..|items|] == items;
    ok := true;
  }

  /** A lookup table built from the entries' ids. */
  ghost predicate Table<T(!new)>(byId: map<string, T>, items: seq<T>, id: T -> string) {
    && (forall x <- items :: id(x) in byId && byId[id(x)] == x)
    && (forall k <- byId :: byId[k] in items && id(byId[k]) == k)
  }

  /** `new Map(items.map(item => [item.id, item]))` */
  method IndexById<T(!new)>(items: seq<T>, id: T -> string) returns (byId: map<string, T>)
    requires UniqueIds(items, id)
    ensures Table(byId, items, id)
  {
    byId := map[];
    for i := 0 to |items|
      invariant Table(byId, items[..i], id)
    {
      assert items[..i + 1] == items[..i] + [items[i]];
      byId := byId[id(items[i]) := items[i]];
    }
    assert items[..|items|] == items;
  }

  method ValidateCompatibilityContract(contract: Contract, current: seq<Artifact>, currentById: map<string, Artifact>)
    returns (ok: bool)
    requires Table(currentById, current, ArtifactId)
    ensures ok <==> ContractOk(contract, current)
  {
    ok := AssertUniqueIds(contract.aliases, AliasId);
    if !ok { return; }
    ok := AssertUniqueIds(contract.retired, RetiredId);
    if !ok { return; }
    var aliasIds := set a <- contract.aliases :: a.id;
    for i := 0 to |contract.retired|
      invariant forall r <- contract.retired[..i] :: r.id !in aliasIds
    {
      if contract.retired[i].id in aliasIds { return false; }
    }
    for i := 0 to |contract.aliases|
      invariant forall a <- contract.aliases[..i] :: AliasOk(current, a)
    {
      var a := contract.aliases[i];
      var valid := IsSha256(a.currentChecksum) && a.storedChecksums != []
        && (forall k, j | 0 <= k < j < |a.storedChecksums| :: a.storedChecksums[k] != a.storedChecksums[j])
        && (a.retryable == None || (a.retryable.value.fragments != [] && "" !in a.retryable.value.fragments))
        && a.id in currentById && currentById[a.id].checksum == a.currentChecksum;
      ghost var bound := Artifact(a.id, a.currentChecksum);
      assert bound in current ==> currentById[ArtifactId(bound)] == bound;
      assert a.id in currentById ==> currentById[a.id] in current;
      assert valid <==> AliasOk(current, a);
      if !valid { return false; }
    }
    for i := 0 to |contract.retired|
      invariant forall r <- contract.retired[..i] :: RetiredOk(current, r)
    {
      var r := contract.retired[i];
      var valid := IsSha256(r.storedChecksum) && r.id !in currentById
        && (r.SupersededFailure? ==>
              IsSha256(r.errorLogSha256) && IsSha256(r.byChecksum) && r.byId in currentById);
      assert r.id in currentById ==> currentById[r.id] in current;
      assert r.SupersededFailure? && r.byId in currentById ==> currentById[r.byId] in current;
      assert forall c <- current :: ArtifactId(c) in currentById;
      assert valid <==> RetiredOk(current, r);
      if !valid { return false; }
    }
    assert contract.aliases[..|contract.aliases|] == contract.aliases;
    assert contract.retired[..|contract.retired|] == contract.retired;
  }

  /** The loop body for a row whose artifact still exists. */
  method JudgeCurrent(x: Context, current: Artifact, aliasesById: map<string, Alias>, stored: Record)
    returns (ok: bool, legacy: Option<Accepted>)
    requires UniqueIds(x.current, ArtifactId) && ContractOk(x.contract, x.current)
    requires current in x.current && current.id == stored.id
    requires Table(aliasesById, x.contract.aliases, AliasId)
    ensures ok <==> RowOk(x, stored)
    ensures ok ==> (legacy == None <==> PlainSuccess(x, stored))
    ensures ok && legacy.Some? ==> LegacyAs(x, stored, legacy.value)
  {
    CurrentRowRules(x, current, stored);
    assert forall c <- x.current :: ArtifactId(c) == ArtifactId(current) ==> c == current;
    assert forall a <- x.contract.aliases :: AliasId(a) == stored.id ==> aliasesById[stored.id] == a;
    if !stored.ok {
      OnlyRetryable(x, stored);
      if stored.id !in aliasesById { return false, None; }
      var a := aliasesById[stored.id];
      assert forall b :: ExactRetryable(x, stored, b) ==> b == a;
      if a.retryable == None || a.currentChecksum != current.checksum || stored.checksum !in a.storedChecksums
         || stored.errorLog == None
         || !(forall f <- a.retryable.value.fragments :: Includes(stored.errorLog.value, f)) {
        return false, None;
      }
      assert ExactRetryable(x, stored, a);
      return true, Some(Accepted(stored.id, RetryableKind, a.retryable.value.reason));
    }
    if stored.errorLog != None { return false, None; }
    if stored.checksum == current.checksum { return true, None; }
    OnlyAliased(x, stored);
    if stored.id !in aliasesById { return false, None; }
    var a := aliasesById[stored.id];
    assert forall b :: BoundAlias(x, stored, b) ==> b == a;
    if a.currentChecksum != current.checksum || stored.checksum !in a.storedChecksums { return false, None; }
    assert BoundAlias(x, stored, a);
    return true, Some(Accepted(stored.id, ChecksumAliasKind, a.reason));
  }

  /** The loop body for a row without a current artifact. */
  method JudgeRetired(x: Context, appliedById: map<string, Record>, retiredById: map<string, Retired>, stored: Record)
    returns (ok: bool, legacy: Option<Accepted>)
    requires forall c <- x.current :: c.id != stored.id
    requires Table(appliedById, x.applied, RecordId) && Table(retiredById, x.contract.retired, RetiredId)
    ensures ok <==> RowOk(x, stored)
    ensures ok ==> legacy.Some? && !PlainSuccess(x, stored) && LegacyAs(x, stored, legacy.value)
  {
    assert forall r <- x.contract.retired :: RetiredId(r) == stored.id ==> retiredById[stored.id] == r;
    if stored.id !in retiredById { return false, None; }
    var r := retiredById[stored.id];
    if stored.checksum != r.storedChecksum { return false, None; }
    if r.RetiredSuccess? {
      if !stored.ok || stored.errorLog != None { return false, None; }
      assert RetiredAsSuccess(x, stored, r);
      var e := Accepted(stored.id, RetiredKind, r.reason);
      assert LegacyAs(x, stored, e);
      return true, Some(e);
    }
    if stored.ok || stored.errorLog == None || x.sha256(stored.errorLog.value) != r.errorLogSha256 { return false, None; }
    ghost var wanted := Record(r.byId, r.byChecksum, true, None);
    assert wanted in x.applied ==> appliedById[RecordId(wanted)] == wanted;
    if r.byId !in appliedById { return false, None; }
    var superseder := appliedById[r.byId];
    if !superseder.ok || superseder.errorLog != None || superseder.checksum != r.byChecksum { return false, None; }
    assert superseder == wanted;
    assert ProvenSuperseded(x, stored, r);
    var e := Accepted(stored.id, SupersededKind, r.reason);
    assert LegacyAs(x, stored, e);
    return true, Some(e);
  }

  /** A row whose artifact still exists can only be plain, aliased or retryable. */
  lemma {:induction false} CurrentRowRules(x: Context, current: Artifact, s: Record)
    requires ContractOk(x.contract, x.current) && current in x.current && current.id == s.id
    ensures forall r :: !RetiredAsSuccess(x, s, r) && !ProvenSuperseded(x, s, r)
  {
    forall r ensures !RetiredAsSuccess(x, s, r) && !ProvenSuperseded(x, s, r) {
      if r in x.contract.retired {
        assert RetiredOk(x.current, r);
      }
    }
  }

  lemma {:induction false} OnlyRetryable(x: Context, s: Record)
    requires !s.ok && forall r :: !ProvenSuperseded(x, s, r)
    ensures RowOk(x, s) <==> exists a :: ExactRetryable(x, s, a)
  {
    if a :| ExactRetryable(x, s, a) {
      assert LegacyAs(x, s, Accepted(s.id, RetryableKind, a.retryable.value.reason));
    }
  }

  lemma {:induction false} OnlyAliased(x: Context, s: Record)
    requires s.ok && !PlainSuccess(x, s) && forall r :: !RetiredAsSuccess(x, s, r)
    ensures RowOk(x, s) <==> exists a :: BoundAlias(x, s, a)
  {
    if a :| BoundAlias(x, s, a) {
      assert LegacyAs(x, s, Accepted(s.id, ChecksumAliasKind, a.reason));
    }
  }

  /** One iteration of the history loop. */
  method JudgeRow(x: Context, currentById: map<string, Artifact>, appliedById: map<string, Record>,
                  aliasesById: map<string, Alias>, retiredById: map<string, Retired>, stored: Record)
    returns (ok: bool, legacy: Option<Accepted>)
    requires UniqueIds(x.current, ArtifactId) && ContractOk(x.contract, x.current)
    requires Table(currentById, x.current, ArtifactId) && Table(appliedById, x.applied, RecordId)
    requires Table(aliasesById, x.contract.aliases, AliasId) && Table(retiredById, x.contract.retired, RetiredId)
    ensures ok <==> RowOk(x, stored)
    ensures ok ==> (legacy == None <==> PlainSuccess(x, stored))
    ensures ok && legacy.Some? ==> LegacyAs(x, stored, legacy.value)
  {
    if stored.id in currentById {
      ok, legacy := JudgeCurrent(x, currentById[stored.id], aliasesById, stored);
    } else {
      assert forall c <- x.current :: ArtifactId(c) in currentById;
      ok, legacy := JudgeRetired(x, appliedById, retiredById, stored);
    }
  }

  lemma {:induction false} NamesStep(x: Context, rows: seq<Record>, s: Record, legacy: seq<Accepted>, exception: Option<Accepted>)
    requires Names(x, rows, legacy)
    requires exception == None <==> PlainSuccess(x, s)
    requires exception.Some? ==> LegacyAs(x, s, exception.value)
    ensures Names(x, rows + [s], if exception.Some? then legacy + [exception.value] else legacy)
  {
    assert (rows + [s])[..|rows|] == rows;
  }

  /** Rows that are plain or named are all acceptable. */
  lemma {:induction false} NamedRowsAreOk(x: Context, rows: seq<Record>, legacy: seq<Accepted>)
    requires Names(x, rows, legacy)
    ensures forall s <- rows :: RowOk(x, s)
    decreases |rows|
  {
    if rows != [] {
      var front, last := rows[..|rows| - 1], rows[|rows| - 1];
      assert rows == front + [last];
      if PlainSuccess(x, last) {
        NamedRowsAreOk(x, front, legacy);
      } else {
        assert LegacyAs(x, NonPlain(x, rows)[|legacy| - 1], legacy[|legacy| - 1]);
        NamedRowsAreOk(x, front, legacy[..|legacy| - 1]);
      }
    }
  }

  /** The loop over the stored rows. */
  method CollectLegacy(x: Context, currentById: map<string, Artifact>, appliedById: map<string, Record>,
                       aliasesById: map<string, Alias>, retiredById: map<string, Retired>)
    returns (ok: bool, legacy: seq<Accepted>)
    requires UniqueIds(x.current, ArtifactId) && ContractOk(x.contract, x.current)
    requires Table(currentById, x.current, ArtifactId) && Table(appliedById, x.applied, RecordId)
    requires Table(aliasesById, x.contract.aliases, AliasId) && Table(retiredById, x.contract.retired, RetiredId)
    ensures ok <==> forall s <- x.applied :: RowOk(x, s)
    ensures ok ==> Names(x, x.applied, legacy)
  {
    legacy := [];
    for i := 0 to |x.applied|
      invariant Names(x, x.applied[..i], legacy)
    {
      var stored := x.applied[i];
      var accepted, exception := JudgeRow(x, currentById, appliedById, aliasesById, retiredById, stored);
      if !accepted { return false, []; }
      NamesStep(x, x.applied[..i], stored, legacy, exception);
      assert x.applied[..i + 1] == x.applied[..i] + [stored];
      if exception.Some? {
        legacy := legacy + [exception.value];
      }
    }
    assert x.applied[..|x.applied|] == x.applied;
    NamedRowsAreOk(x, x.applied, legacy);
    ok := true;
  }

  method AssessSystemMigrationHistory(x: Context) returns (verdict: Verdict)
    ensures verdict.AcceptedHistory? <==> Acceptable(x)
    ensures verdict.AcceptedHistory? ==> Names(x, x.applied, verdict.legacy)
  {
    var ok := AssertUniqueIds(x.current, ArtifactId);
    if !ok { return Refused; }
    ok := AssertUniqueIds(x.applied, RecordId);
    if !ok { return Refused; }
    var currentById := IndexById(x.current, ArtifactId);
    var appliedById := IndexById(x.applied, RecordId);
    ok := ValidateCompatibilityContract(x.contract, x.current, currentById);
    if !ok { return Refused; }
    var aliasesById := IndexById(x.contract.aliases, AliasId);
    var retiredById := IndexById(x.contract.retired, RetiredId);
    var legacy;
    ok, legacy := CollectLegacy(x, currentById, appliedById, aliasesById, retiredById);
    if !ok { return Refused; }
    verdict := AcceptedHistory(legacy);
  }

  // ------------------------------------------------------------------- theorems

  /** Neither the order in which rows are read nor duplicates of lookups matter: only which rows exist. */
  lemma {:induction false} RowRuleSeesOnlyTheSet(x: Context, y: Context, s: Record)
    requires y == x.(applied := y.applied) && forall r :: r in x.applied <==> r in y.applied
    requires RowOk(x, s)
    ensures RowOk(y, s)
  {
    if !PlainSuccess(x, s) {
      var e :| LegacyAs(x, s, e);
      assert LegacyAs(y, s, e) by {
        if e.kind.SupersededKind? {
          var r :| ProvenSuperseded(x, s, r) && e.reason == r.reason;
          assert ProvenSuperseded(y, s, r);
        } else if e.kind.RetiredKind? {
          var r :| RetiredAsSuccess(x, s, r) && e.reason == r.reason;
          assert RetiredAsSuccess(y, s, r);
        } else if e.kind.ChecksumAliasKind? {
          var a :| BoundAlias(x, s, a) && e.reason == a.reason;
          assert BoundAlias(y, s, a);
        } else {
          var a :| ExactRetryable(x, s, a) && e.reason == a.retryable.value.reason;
          assert ExactRetryable(y, s, a);
        }
      }
    }
  }

  lemma {:induction false} UniqueIdsPermute(s: seq<Record>, t: seq<Record>)
    requires multiset(s) == multiset(t) && UniqueIds(s, RecordId)
    ensures UniqueIds(t, RecordId)
  {
    SamePermutation(s, t);
    assert Distinct(s);
    PermutationDistinct(s, t);
    forall i, j | 0 <= i < j < |t| ensures RecordId(t[i]) != RecordId(t[j]) {
      assert t[i] in s && t[j] in s;
    }
  }

  /** Acceptance does not depend on the order of the stored rows. */
  lemma {:induction false} AcceptanceIgnoresOrder(x: Context, rows: seq<Record>)
    requires multiset(rows) == multiset(x.applied)
    ensures Acceptable(x) <==> Acceptable(x.(applied := rows))
  {
    var y := x.(applied := rows);
    SamePermutation(x.applied, rows);
    if Acceptable(x) {
      UniqueIdsPermute(x.applied, rows);
      forall s <- rows ensures RowOk(y, s) { RowRuleSeesOnlyTheSet(x, y, s); }
    }
    if Acceptable(y) {
      UniqueIdsPermute(rows, x.applied);
      forall s <- x.applied ensures RowOk(x, s) { RowRuleSeesOnlyTheSet(y, x, s); }
    }
  }

  /** The five rules never overlap: an accepted row has one reading only. */
  lemma {:induction false} RulesAreExclusive(x: Context, s: Record, d: Accepted, e: Accepted)
    requires UniqueIds(x.current, ArtifactId) && ContractOk(x.contract, x.current)
    requires LegacyAs(x, s, d) && LegacyAs(x, s, e)
    ensures d == e && !PlainSuccess(x, s)
  {
    OneReading(x, s, d);
    OneReading(x, s, e);
  }

  ghost function Reading(x: Context, s: Record): (Kind, string) {
    if exists a :: BoundAlias(x, s, a) then
      var a :| BoundAlias(x, s, a); (ChecksumAliasKind, a.reason)
    else if exists a :: ExactRetryable(x, s, a) then
      var a :| ExactRetryable(x, s, a); (RetryableKind, a.retryable.value.reason)
    else if exists r :: RetiredAsSuccess(x, s, r) then
      var r :| RetiredAsSuccess(x, s, r); (RetiredKind, r.reason)
    else if exists r :: ProvenSuperseded(x, s, r) then
      var r :| ProvenSuperseded(x, s, r); (SupersededKind, r.reason)
    else (ChecksumAliasKind, "")
  }

  lemma {:induction false} OneReading(x: Context, s: Record, e: Accepted)
    requires UniqueIds(x.current, ArtifactId) && ContractOk(x.contract, x.current)
    requires LegacyAs(x, s, e)
    ensures (e.kind, e.reason) == Reading(x, s) && !PlainSuccess(x, s)
  {
    forall a, b | a in x.contract.aliases && b in x.contract.aliases && a.id == b.id ensures a == b {
      assert AliasId(a) == AliasId(b);
    }
    forall a, b | a in x.contract.retired && b in x.contract.retired && a.id == b.id ensures a == b {
      assert RetiredId(a) == RetiredId(b);
    }
    forall a, b | a in x.current && b in x.current && a.id == b.id ensures a == b {
      assert ArtifactId(a) == ArtifactId(b);
    }
    forall r <- x.contract.retired ensures RetiredOk(x.current, r) {}
  }

  // ------------------------------------------------------------- row by row

  ghost predicate ShippedRowFits(x: Context, c: Artifact, s: Record) {
    if s.ok then
      s.errorLog == None
      && (s.checksum == c.checksum || exists a <- x.contract.aliases :: a.id == s.id && s.checksum in a.storedChecksums)
    else
      s.errorLog.Some? && exists a <- x.contract.aliases ::
        a.id == s.id && s.checksum in a.storedChecksums && a.retryable.Some?
        && forall f <- a.retryable.value.fragments :: exists i | 0 <= i <= |s.errorLog.value| :: f <= s.errorLog.value[i..]
  }

  /** The rule for a shipped migration: a success keeps the shipped checksum or one its alias lists; a failure
      needs an alias that lists its checksum and whose fragments all occur in the recorded error. */
  lemma {:induction false} ShippedRowRule(x: Context, c: Artifact, s: Record)
    requires UniqueIds(x.current, ArtifactId) && ContractOk(x.contract, x.current) && c in x.current && c.id == s.id
    ensures RowOk(x, s) <==> ShippedRowFits(x, c, s)
  {
    CurrentRowRules(x, c, s);
    OneArtifact(x, c, s.id);
    AliasNamesArtifact(x, c);
    assert PlainSuccess(x, s) <==> s.ok && s.errorLog == None && s.checksum == c.checksum;
    if s.ok {
      if !PlainSuccess(x, s) {
        OnlyAliased(x, s);
        assert (exists a :: BoundAlias(x, s, a)) ==> ShippedRowFits(x, c, s);
        forall a <- x.contract.aliases | s.errorLog == None && a.id == s.id && s.checksum in a.storedChecksums
          ensures BoundAlias(x, s, a) {}
      }
    } else {
      OnlyRetryable(x, s);
      forall a <- x.contract.aliases
        ensures ExactRetryable(x, s, a) <==>
                  a.id == s.id && s.checksum in a.storedChecksums && a.retryable.Some? && s.errorLog.Some?
                  && forall f <- a.retryable.value.fragments :: Includes(s.errorLog.value, f) {}
    }
  }

  lemma {:induction false} OneArtifact(x: Context, c: Artifact, id: string)
    requires UniqueIds(x.current, ArtifactId) && c in x.current && c.id == id
    ensures forall d <- x.current :: d.id == id ==> d == c
  {
    var i :| 0 <= i < |x.current| && x.current[i] == c;
    forall d <- x.current | d.id == id ensures d == c {
      var j :| 0 <= j < |x.current| && x.current[j] == d;
      assert ArtifactId(x.current[i]) == ArtifactId(x.current[j]);
    }
  }

  lemma {:induction false} AliasNamesArtifact(x: Context, c: Artifact)
    requires UniqueIds(x.current, ArtifactId) && ContractOk(x.contract, x.current) && c in x.current
    ensures forall a <- x.contract.aliases :: a.id == c.id ==> a.currentChecksum == c.checksum
  {
    OneArtifact(x, c, c.id);
    forall a <- x.contract.aliases | a.id == c.id ensures a.currentChecksum == c.checksum {
      assert AliasOk(x.current, a);
    }
  }

  ghost predicate RetiredRowFits(x: Context, s: Record, r: Retired) {
    && r.id == s.id && r.storedChecksum == s.checksum
    && match r
       case RetiredSuccess(_, _, _) => s.ok && s.errorLog == None
       case SupersededFailure(_, _, digest, byId, byChecksum, _) =>
         !s.ok && s.errorLog.Some? && x.sha256(s.errorLog.value) == digest && Record(byId, byChecksum, true, None) in x.applied
  }

  /** The rule for a migration that is no longer shipped: an exactly recorded success, or an exactly recorded failure
      together with the recorded success of the migration that replaced it. */
  lemma {:induction false} RetiredRowRule(x: Context, s: Record)
    requires ContractOk(x.contract, x.current) && forall c <- x.current :: c.id != s.id
    ensures RowOk(x, s) <==> exists r <- x.contract.retired :: RetiredRowFits(x, s, r)
  {
    forall r <- x.contract.retired ensures RetiredRowFits(x, s, r) <==> RetiredAsSuccess(x, s, r) || ProvenSuperseded(x, s, r) {}
    forall r <- x.contract.retired | RetiredAsSuccess(x, s, r) ensures RowOk(x, s) {
      assert LegacyAs(x, s, Accepted(s.id, RetiredKind, r.reason));
    }
    forall r <- x.contract.retired | ProvenSuperseded(x, s, r) ensures RowOk(x, s) {
      assert LegacyAs(x, s, Accepted(s.id, SupersededKind, r.reason));
    }
    if RowOk(x, s) {
      var e :| LegacyAs(x, s, e);
      var r :| r in x.contract.retired && (RetiredAsSuccess(x, s, r) || ProvenSuperseded(x, s, r));
      assert RetiredRowFits(x, s, r);
    }
  }
}
