/** The system-migration runner and its ledger (migrations/runner.ts, migrations/system-retry.ts). */
module MigrationLedger {
  import opened Common
  import opened SystemHistory

  const MAX_ERROR_LOG: nat := 32 * 1024

  /** How one call of applyOne ends. A run killed before its ledger row is written is Killed. */
  datatype Attempt = PreflightRefused | Killed | ThrewError(log: string, message: string) | Succeeded

  /** What a release fixes: the discovered artifacts sorted by id, the reviewed contract, SHA-256 and localeCompare. */
  datatype Release = Release(
    all: seq<Artifact>, contract: Contract, sha256: string -> string, less: (string, string) -> bool)

  datatype RetryRefusal =
    UnsafeId | BadChecksum | NotRecorded | DuplicateRecords | AlreadySucceeded | NoRecordedError | Drift | LaterHistory

  // ------------------------------------------------------------ specification

  ghost function History(release: Release, ledger: seq<Record>): Context {
    Context(release.all, release.contract, ledger, release.sha256)
  }

  /** The row applyOne writes, if it gets that far. */
  function RowFor(m: Artifact, a: Attempt): Option<Record> {
    match a
    case Succeeded => Some(Record(m.id, m.checksum, true, None))
    case ThrewError(log, message) =>
      Some(Record(m.id, m.checksum, false, Some(LastChars(log + "\nERROR: " + message + "\n", MAX_ERROR_LOG))))
    case _ => None
  }

  function Upsert(ledger: seq<Record>, row: Record): seq<Record> {
    if ledger == [] then [row]
    else if ledger[0].id == row.id then [row] + ledger[1..]
    else [ledger[0]] + Upsert(ledger[1..], row)
  }

  function SuccessfulIds(ledger: seq<Record>): set<string> {
    set r <- ledger | r.ok :: r.id
  }

  function NotIn(ids: set<string>): Artifact -> bool {
    (m: Artifact) => m.id !in ids
  }

  function Pending(all: seq<Artifact>, ledger: seq<Record>): seq<Artifact> {
    Filter(all, NotIn(SuccessfulIds(ledger)))
  }

  function ApplyAll(ledger: seq<Record>, pending: seq<Artifact>, attempts: string -> Attempt): seq<Record>
    decreases |pending|
  {
    if pending == [] then ledger
    else match RowFor(pending[0], attempts(pending[0].id))
      case None => ledger
      case Some(row) =>
        if row.ok then ApplyAll(Upsert(ledger, row), pending[1..], attempts) else Upsert(ledger, row)
  }

  ghost function AfterUp(release: Release, ledger: seq<Record>, dryRun: bool, attempts: string -> Attempt): seq<Record> {
    if dryRun || !Acceptable(History(release, ledger)) then ledger
    else ApplyAll(ledger, Pending(release.all, ledger), attempts)
  }

  predicate Digits(s: string) { forall c <- s :: '0' <= c <= '9' }

  /** /^[0-9]{4}-[0-9]{2}-[0-9]{2}-[0-9]{3}-[a-z0-9-]+$/ */
  predicate SafeId(id: string) {
    && |id| > 15
    && Digits(id[..4]) && id[4] == '-' && Digits(id[5..7]) && id[7] == '-'
    && Digits(id[8..10]) && id[10] == '-' && Digits(id[11..14]) && id[14] == '-'
    && forall c <- id[15..] :: 'a' <= c <= 'z' || '0' <= c <= '9' || c == '-'
  }

  function HasId(id: string): Record -> bool { (r: Record) => r.id == id }
  function OtherThan(id: string): Record -> bool { (r: Record) => r.id != id }

  /** assertFailedSystemMigrationRetry: None when the retry may go ahead. */
  function RetryRefused(release: Release, id: string, checksum: string, records: seq<Record>): Option<RetryRefusal> {
    var matching := Filter(records, HasId(id));
    if !SafeId(id) then Some(UnsafeId)
    else if !IsSha256(checksum) then Some(BadChecksum)
    else if |matching| == 0 then Some(NotRecorded)
    else if |matching| > 1 then Some(DuplicateRecords)
    else if matching[0].ok then Some(AlreadySucceeded)
    else if matching[0].errorLog == None || matching[0].errorLog == Some("") then Some(NoRecordedError)
    else if matching[0].checksum != checksum then Some(Drift)
    else if exists r <- records :: release.less(id, r.id) then Some(LaterHistory)
    else None
  }

  /** retryFailed reaches applyOne for artifact `m`. */
  ghost predicate MayRetry(release: Release, ledger: seq<Record>, m: Artifact) {
    var others := Filter(ledger, OtherThan(m.id));
    && RetryRefused(release, m.id, m.checksum, ledger) == None
    && Acceptable(History(release, others))
    && forall e <- release.all :: release.less(e.id, m.id) ==> e.id in SuccessfulIds(others)
  }

  ghost function AfterRetry(release: Release, ledger: seq<Record>, id: string, attempt: Attempt): seq<Record> {
    if m :| m in release.all && m.id == id && MayRetry(release, ledger, m) then
      match RowFor(m, attempt) case None => ledger case Some(row) => Upsert(ledger, row)
    else ledger
  }

  function Success(m: Artifact): Record { Record(m.id, m.checksum, true, None) }

  function AllIds(ledger: seq<Record>): set<string> {
    set r <- ledger :: r.id
  }

  /** baselineFreshInstall, one transaction. `provenFresh` is the outcome of assertFreshInstallDatabase
      together with every stored row having a zero duration. */
  ghost predicate MayBaseline(release: Release, ledger: seq<Record>, provenFresh: bool) {
    && provenFresh && Acceptable(History(release, []))
    && forall r <- ledger :: r.ok && r.errorLog == None && Artifact(r.id, r.checksum) in release.all
  }

  ghost function AfterBaseline(release: Release, ledger: seq<Record>, provenFresh: bool): seq<Record> {
    if MayBaseline(release, ledger, provenFresh) then ledger + Map(Filter(release.all, NotIn(AllIds(ledger))), Success)
    else ledger
  }

  datatype Command =
    | Up(dryRun: bool, attempts: string -> Attempt)
    | Retry(id: string, attempt: Attempt)
    | Baseline(provenFresh: bool)

  ghost function After(release: Release, ledger: seq<Record>, c: Command): seq<Record> {
    match c
    case Up(dryRun, attempts) => AfterUp(release, ledger, dryRun, attempts)
    case Retry(id, attempt) => AfterRetry(release, ledger, id, attempt)
    case Baseline(provenFresh) => AfterBaseline(release, ledger, provenFresh)
  }

  ghost function AfterCommands(release: Release, ledger: seq<Record>, commands: seq<Command>): seq<Record>
    decreases |commands|
  {
    if commands == [] then ledger
    else AfterCommands(release, After(release, ledger, commands[0]), commands[1..])
  }

  // ---------------------------------------------------------------- invariant

  /** discoverMigrations: distinct non-empty ids in localeCompare order. */
  ghost predicate Discovered(release: Release) {
    && StrictTotalOrder(release.less)
    && (forall i, j | 0 <= i < j < |release.all| :: release.less(release.all[i].id, release.all[j].id))
    && (forall m <- release.all :: m.id != "")
  }

  /** No reviewed alias admits the artifact it ships with: a caller can read this off the contract. */
  ghost predicate ForeignAliases(contract: Contract) {
    forall a <- contract.aliases :: a.currentChecksum !in a.storedChecksums
  }

  /** The first k artifacts succeeded, in order; `failure` is the log of a failed attempt at the next one. */
  function Shape(all: seq<Artifact>, k: nat, failure: Option<string>): seq<Record>
    requires k <= |all| && (failure.Some? ==> k < |all|)
  {
    Map(all[..k], Success)
    + (if failure.Some? then [Record(all[k].id, all[k].checksum, false, failure)] else [])
  }

  predicate Fits(all: seq<Artifact>, k: nat, failure: Option<string>) {
    k <= |all| && (failure.Some? ==> k < |all| && failure.value != "")
  }

  /** A ledger that is a prefix of successes plus at most one failure right behind it. */
  ghost predicate Lawful(release: Release, ledger: seq<Record>) {
    exists k: nat, failure: Option<string> :: Fits(release.all, k, failure) && ledger == Shape(release.all, k, failure)
  }

  // ------------------------------------------------------------------- proofs

  lemma {:induction false} IdsDiffer(release: Release, i: nat, j: nat)
    requires Discovered(release) && i < |release.all| && j < |release.all| && i != j
    ensures release.all[i].id != release.all[j].id
  {
    if i < j {
      assert release.less(release.all[i].id, release.all[j].id);
    } else {
      assert release.less(release.all[j].id, release.all[i].id);
    }
  }

  lemma {:induction false} SameIdSameArtifact(release: Release, k: nat)
    requires Discovered(release) && k < |release.all|
    ensures forall m <- release.all :: m.id == release.all[k].id ==> m == release.all[k]
  {
    forall i: nat | i < |release.all| && i != k ensures release.all[i].id != release.all[k].id {
      IdsDiffer(release, i, k);
    }
  }

  lemma {:induction false} ShapeIds(release: Release, k: nat, failure: Option<string>)
    requires Discovered(release) && Fits(release.all, k, failure)
    ensures SuccessfulIds(Shape(release.all, k, failure)) == set i | 0 <= i < k :: release.all[i].id
    ensures forall j | k <= j < |release.all| :: release.all[j].id !in SuccessfulIds(Shape(release.all, k, failure))
  {
    var ledger := Shape(release.all, k, failure);
    forall i | 0 <= i < k ensures ledger[i] in ledger && ledger[i] == Success(release.all[i]) {}
    forall j, i | k <= j < |release.all| && 0 <= i < k ensures release.all[j].id != release.all[i].id {
      IdsDiffer(release, i, j);
    }
  }

  lemma {:induction false} PendingIsSuffix(release: Release, k: nat, failure: Option<string>)
    requires Discovered(release) && Fits(release.all, k, failure)
    ensures Pending(release.all, Shape(release.all, k, failure)) == release.all[k..]
  {
    var keep := NotIn(SuccessfulIds(Shape(release.all, k, failure)));
    ShapeIds(release, k, failure);
    assert release.all == release.all[..k] + release.all[k..];
    FilterAppend(release.all[..k], release.all[k..], keep);
    FilterNone(release.all[..k], keep);
    FilterAll(release.all[k..], keep);
  }

  lemma {:induction false} UpsertAppends(ledger: seq<Record>, row: Record)
    requires forall r <- ledger :: r.id != row.id
    ensures Upsert(ledger, row) == ledger + [row]
  {
    if ledger != [] {
      UpsertAppends(ledger[1..], row);
    }
  }

  lemma {:induction false} UpsertPosition(ledger: seq<Record>, row: Record, i: nat)
    requires i <= |ledger| && forall j | 0 <= j < i :: ledger[j].id != row.id
    requires i < |ledger| ==> ledger[i].id == row.id
    ensures Upsert(ledger, row) == if i < |ledger| then ledger[i := row] else ledger + [row]
  {
    if i > 0 {
      UpsertPosition(ledger[1..], row, i - 1);
    }
  }

  lemma {:induction false} UpsertReplacesLast(front: seq<Record>, last: Record, row: Record)
    requires last.id == row.id && forall r <- front :: r.id != row.id
    ensures Upsert(front + [last], row) == front + [row]
  {
    if front != [] {
      assert (front + [last])[1..] == front[1..] + [last];
      UpsertReplacesLast(front[1..], last, row);
    }
  }

  lemma {:induction false} SuccessesLackId(release: Release, k: nat)
    requires Discovered(release) && k < |release.all|
    ensures forall r <- Map(release.all[..k], Success) :: r.id != release.all[k].id
  {
    var front := Map(release.all[..k], Success);
    forall r <- front ensures r.id != release.all[k].id {
      var i :| 0 <= i < k && front[i] == r;
      IdsDiffer(release, i, k);
    }
  }

  lemma {:induction false} ErrorLogNonEmpty(m: Artifact, a: Attempt)
    ensures a.ThrewError? ==> RowFor(m, a).value.errorLog.Some? && RowFor(m, a).value.errorLog.value != ""
  {
  }

  /** One attempt at the artifact that is due, whether or not it failed before. */
  lemma {:induction false} AttemptKeepsShape(release: Release, k: nat, failure: Option<string>, a: Attempt)
    requires Discovered(release) && Fits(release.all, k, failure) && k < |release.all|
    requires RowFor(release.all[k], a).Some?
    ensures var row := RowFor(release.all[k], a).value;
            var ledger := Upsert(Shape(release.all, k, failure), row);
            if row.ok then ledger == Shape(release.all, k + 1, None)
            else Fits(release.all, k, row.errorLog) && ledger == Shape(release.all, k, row.errorLog)
  {
    var row := RowFor(release.all[k], a).value;
    var front := Map(release.all[..k], Success);
    SuccessesLackId(release, k);
    ErrorLogNonEmpty(release.all[k], a);
    if failure.Some? {
      UpsertReplacesLast(front, Record(release.all[k].id, release.all[k].checksum, false, failure), row);
    } else {
      assert Shape(release.all, k, failure) == front;
      UpsertAppends(front, row);
    }
    assert row.ok ==> front + [row] == Map(release.all[..k + 1], Success);
  }

  lemma {:induction false} ApplyAllKeepsShape(release: Release, k: nat, failure: Option<string>, attempts: string -> Attempt)
    requires Discovered(release) && Fits(release.all, k, failure)
    ensures Lawful(release, ApplyAll(Shape(release.all, k, failure), release.all[k..], attempts))
    ensures (forall m <- release.all :: attempts(m.id).Succeeded?) ==>
              ApplyAll(Shape(release.all, k, failure), release.all[k..], attempts) == Shape(release.all, |release.all|, None)
    decreases |release.all| - k
  {
    var due := release.all[k..];
    if due == [] {
      assert Fits(release.all, k, failure);
    } else {
      assert due[0] == release.all[k] && due[1..] == release.all[k + 1..];
      var a := attempts(due[0].id);
      if RowFor(due[0], a) == None {
        assert Fits(release.all, k, failure);
      } else {
        AttemptKeepsShape(release, k, failure, a);
        if a.Succeeded? {
          ApplyAllKeepsShape(release, k + 1, None, attempts);
        } else {
          assert Fits(release.all, k, RowFor(due[0], a).value.errorLog);
        }
      }
    }
  }

  /** A clean prefix is accepted exactly when the reviewed contract fits the release. */
  lemma {:induction false} PrefixAcceptance(release: Release, k: nat)
    requires Discovered(release) && k <= |release.all|
    ensures Acceptable(History(release, Shape(release.all, k, None))) <==> ContractOk(release.contract, release.all)
  {
    var ledger := Shape(release.all, k, None);
    var x := History(release, ledger);
    forall i, j | 0 <= i < j < |release.all| ensures ArtifactId(release.all[i]) != ArtifactId(release.all[j]) {
      IdsDiffer(release, i, j);
    }
    forall i | 0 <= i < k ensures ledger[i] == Success(release.all[i]) && release.all[i] in release.all {}
    forall s <- ledger ensures RowOk(x, s) {
      assert PlainSuccess(x, s);
    }
  }

  /** With a failure recorded, `up` goes on exactly when a reviewed alias declares that very failure retryable. */
  lemma {:induction false} FailureAcceptance(release: Release, k: nat, failure: Option<string>)
    requires Discovered(release) && Fits(release.all, k, failure) && failure.Some?
    ensures var ledger := Shape(release.all, k, failure);
            Acceptable(History(release, ledger)) <==>
              ContractOk(release.contract, release.all) && exists a :: ExactRetryable(History(release, ledger), ledger[k], a)
  {
    var ledger := Shape(release.all, k, failure);
    var x := History(release, ledger);
    forall i, j | 0 <= i < j < |release.all| ensures ArtifactId(release.all[i]) != ArtifactId(release.all[j]) {
      IdsDiffer(release, i, j);
    }
    forall i | 0 <= i < k ensures ledger[i] == Success(release.all[i]) && release.all[i] in release.all {}
    assert UniqueIds(ledger, RecordId) && UniqueIds(release.all, ArtifactId);
    assert ledger[k] in ledger && release.all[k] in release.all;
    if ContractOk(release.contract, release.all) {
      CurrentRowRules(x, release.all[k], ledger[k]);
      OnlyRetryable(x, ledger[k]);
      forall i | 0 <= i < k ensures RowOk(x, ledger[i]) {
        assert PlainSuccess(x, ledger[i]);
      }
    }
  }

  /** A failed row of this release is never an accepted exception when no alias admits its own artifact. */
  lemma {:induction false} FailureIsRefused(release: Release, k: nat, failure: Option<string>)
    requires Discovered(release) && Fits(release.all, k, failure) && failure.Some?
    requires ForeignAliases(release.contract)
    ensures !Acceptable(History(release, Shape(release.all, k, failure)))
  {
    FailureAcceptance(release, k, failure);
    var ledger := Shape(release.all, k, failure);
    SameIdSameArtifact(release, k);
    forall a ensures !ExactRetryable(History(release, ledger), ledger[k], a) {
      var artifact := Artifact(ledger[k].id, a.currentChecksum);
      assert artifact in release.all ==> artifact == release.all[k];
    }
  }

  lemma {:induction false} UpKeepsLawful(release: Release, ledger: seq<Record>, dryRun: bool, attempts: string -> Attempt)
    requires Discovered(release) && Lawful(release, ledger)
    ensures Lawful(release, AfterUp(release, ledger, dryRun, attempts))
  {
    var k: nat, failure: Option<string> :| Fits(release.all, k, failure) && ledger == Shape(release.all, k, failure);
    PendingIsSuffix(release, k, failure);
    ApplyAllKeepsShape(release, k, failure, attempts);
  }

  lemma {:induction false} FilterOnly<T>(s: seq<T>, i: nat, keep: T -> bool)
    requires i < |s| && forall j | 0 <= j < |s| && j != i :: !keep(s[j])
    ensures Filter(s, keep) == if keep(s[i]) then [s[i]] else []
  {
    assert s == s[..i] + ([s[i]] + s[i + 1..]);
    FilterAppend(s[..i], [s[i]] + s[i + 1..], keep);
    FilterAppend([s[i]], s[i + 1..], keep);
    FilterNone(s[..i], keep);
    FilterNone(s[i + 1..], keep);
  }

  lemma {:induction false} FilterAllButLast<T>(s: seq<T>, keep: T -> bool)
    requires s != [] && !keep(s[|s| - 1]) && forall j | 0 <= j < |s| - 1 :: keep(s[j])
    ensures Filter(s, keep) == s[..|s| - 1]
  {
    if |s| > 1 {
      FilterAllButLast(s[1..], keep);
    }
  }

  lemma {:induction false} FindById(release: Release, k: nat, failure: Option<string>, i: nat)
    requires Discovered(release) && Fits(release.all, k, failure) && i < |release.all|
    ensures Filter(Shape(release.all, k, failure), HasId(release.all[i].id))
            == if i < |Shape(release.all, k, failure)| then [Shape(release.all, k, failure)[i]] else []
  {
    var ledger := Shape(release.all, k, failure);
    forall j | 0 <= j < |ledger| && j != i ensures !HasId(release.all[i].id)(ledger[j]) {
      IdsDiffer(release, i, j);
    }
    if i < |ledger| {
      FilterOnly(ledger, i, HasId(release.all[i].id));
    } else {
      FilterNone(ledger, HasId(release.all[i].id));
    }
  }

  lemma {:induction false} WithoutFailure(release: Release, k: nat, failure: Option<string>)
    requires Discovered(release) && Fits(release.all, k, failure) && failure.Some?
    ensures Filter(Shape(release.all, k, failure), OtherThan(release.all[k].id)) == Shape(release.all, k, None)
  {
    var ledger := Shape(release.all, k, failure);
    forall j | 0 <= j < |ledger| - 1 ensures OtherThan(release.all[k].id)(ledger[j]) {
      IdsDiffer(release, k, j);
    }
    FilterAllButLast(ledger, OtherThan(release.all[k].id));
  }

  /** No row sorts after the failed one, and everything that sorts before it succeeded. */
  lemma {:induction false} FailureIsLast(release: Release, k: nat, failure: Option<string>)
    requires Discovered(release) && Fits(release.all, k, failure) && failure.Some?
    ensures forall r <- Shape(release.all, k, failure) :: !release.less(release.all[k].id, r.id)
    ensures forall e <- release.all | release.less(e.id, release.all[k].id) ::
              e.id in SuccessfulIds(Shape(release.all, k, None))
  {
    var ledger := Shape(release.all, k, failure);
    var m := release.all[k];
    forall r <- ledger ensures !release.less(m.id, r.id) {
      var j :| 0 <= j < |ledger| && ledger[j] == r;
      assert r.id == release.all[j].id;
      assert j < k ==> release.less(release.all[j].id, m.id);
    }
    ShapeIds(release, k, None);
    forall e <- release.all | release.less(e.id, m.id) ensures e.id in SuccessfulIds(Shape(release.all, k, None)) {
      var j :| 0 <= j < |release.all| && release.all[j] == e;
      assert j > k ==> release.less(m.id, e.id);
    }
  }

  /** retry goes ahead for exactly one artifact: the one whose failure is recorded. */
  lemma {:induction false} OnlyTheFailureMayRetry(release: Release, k: nat, failure: Option<string>, i: nat)
    requires Discovered(release) && Fits(release.all, k, failure) && i < |release.all|
    ensures MayRetry(release, Shape(release.all, k, failure), release.all[i]) <==>
              && i == k && failure.Some?
              && ContractOk(release.contract, release.all)
              && SafeId(release.all[k].id) && IsSha256(release.all[k].checksum)
  {
    FindById(release, k, failure, i);
    if i == k && failure.Some? {
      WithoutFailure(release, k, failure);
      FailureIsLast(release, k, failure);
      PrefixAcceptance(release, k);
    }
  }

  lemma {:induction false} RetryKeepsLawful(release: Release, ledger: seq<Record>, id: string, attempt: Attempt)
    requires Discovered(release) && Lawful(release, ledger)
    ensures Lawful(release, AfterRetry(release, ledger, id, attempt))
  {
    var k: nat, failure: Option<string> :| Fits(release.all, k, failure) && ledger == Shape(release.all, k, failure);
    if m :| m in release.all && m.id == id && MayRetry(release, ledger, m) {
      var i :| 0 <= i < |release.all| && release.all[i] == m;
      OnlyTheFailureMayRetry(release, k, failure, i);
      RetryOutcome(release, k, failure, attempt);
    }
  }

  /** What a permitted retry writes: success extends the prefix by one, another failure replaces the log. */
  lemma {:induction false} RetryOutcome(release: Release, k: nat, failure: Option<string>, attempt: Attempt)
    requires Discovered(release) && Fits(release.all, k, failure) && failure.Some?
    ensures var ledger := AfterRetry(release, Shape(release.all, k, failure), release.all[k].id, attempt);
            && Lawful(release, ledger)
            && (attempt.Succeeded? && MayRetry(release, Shape(release.all, k, failure), release.all[k]) ==>
                  ledger == Shape(release.all, k + 1, None))
  {
    var ledger := Shape(release.all, k, failure);
    SameIdSameArtifact(release, k);
    assert Fits(release.all, k, failure);
    if RowFor(release.all[k], attempt).Some? {
      AttemptKeepsShape(release, k, failure, attempt);
      assert attempt.Succeeded? ==> Fits(release.all, k + 1, None);
    }
  }

  lemma {:induction false} BaselineOnPrefix(release: Release, k: nat, provenFresh: bool)
    requires Discovered(release) && k <= |release.all|
    ensures var ledger := Shape(release.all, k, None);
            var after := AfterBaseline(release, ledger, provenFresh);
            after == ledger || after == Shape(release.all, |release.all|, None)
  {
    var ledger := Shape(release.all, k, None);
    assert AllIds(ledger) == SuccessfulIds(ledger);
    PendingIsSuffix(release, k, None);
    PrefixGrows(release.all, k);
  }

  lemma {:induction false} PrefixGrows(all: seq<Artifact>, k: nat)
    requires k <= |all|
    ensures Shape(all, k, None) + Map(all[k..], Success) == Shape(all, |all|, None)
  {
  }

  lemma {:induction false} BaselineKeepsLawful(release: Release, ledger: seq<Record>, provenFresh: bool)
    requires Discovered(release) && Lawful(release, ledger)
    ensures Lawful(release, AfterBaseline(release, ledger, provenFresh))
  {
    var k: nat, failure: Option<string> :| Fits(release.all, k, failure) && ledger == Shape(release.all, k, failure);
    if failure.Some? {
      assert ledger[k] in ledger && !ledger[k].ok;
    } else {
      BaselineOnPrefix(release, k, provenFresh);
      assert Fits(release.all, |release.all|, None);
    }
  }

  /** Main theorem: from an empty ledger, after any commands with any failures, refusals and kills,
      the successes are a prefix of the sorted artifacts with at most one failure right behind. */
  lemma {:induction false} LedgerStaysLawful(release: Release, ledger: seq<Record>, commands: seq<Command>)
    requires Discovered(release) && Lawful(release, ledger)
    ensures Lawful(release, AfterCommands(release, ledger, commands))
    decreases |commands|
  {
    if commands != [] {
      match commands[0] {
        case Up(dryRun, attempts) => UpKeepsLawful(release, ledger, dryRun, attempts);
        case Retry(id, attempt) => RetryKeepsLawful(release, ledger, id, attempt);
        case Baseline(provenFresh) => BaselineKeepsLawful(release, ledger, provenFresh);
      }
      LedgerStaysLawful(release, After(release, ledger, commands[0]), commands[1..]);
    }
  }

  lemma {:induction false} FreshLedgerIsLawful(release: Release, commands: seq<Command>)
    requires Discovered(release)
    ensures Lawful(release, AfterCommands(release, [], commands))
  {
    assert Fits(release.all, 0, None);
    assert Shape(release.all, 0, None) == [];
    LedgerStaysLawful(release, [], commands);
  }

  /** While a failure is recorded, only a retry of that very migration can change the ledger. */
  lemma {:induction false} FailureBlocksEverythingElse(release: Release, k: nat, failure: Option<string>, c: Command)
    requires Discovered(release) && ForeignAliases(release.contract)
    requires Fits(release.all, k, failure) && failure.Some?
    requires After(release, Shape(release.all, k, failure), c) != Shape(release.all, k, failure)
    ensures c.Retry? && c.id == release.all[k].id
    ensures MayRetry(release, Shape(release.all, k, failure), release.all[k])
  {
    var ledger := Shape(release.all, k, failure);
    FailureIsRefused(release, k, failure);
    assert ledger[k] in ledger && !ledger[k].ok;
    if c.Retry? {
      var m :| m in release.all && m.id == c.id && MayRetry(release, ledger, m);
      var i :| 0 <= i < |release.all| && release.all[i] == m;
      OnlyTheFailureMayRetry(release, k, failure, i);
    }
  }

  /** `up` on a clean prefix with a fitting contract and no failure applies everything that is left. */
  lemma {:induction false} UpCompletes(release: Release, k: nat, attempts: string -> Attempt)
    requires Discovered(release) && k <= |release.all| && ContractOk(release.contract, release.all)
    requires forall m <- release.all :: attempts(m.id).Succeeded?
    ensures AfterUp(release, Shape(release.all, k, None), false, attempts) == Shape(release.all, |release.all|, None)
  {
    PrefixAcceptance(release, k);
    PendingIsSuffix(release, k, None);
    ApplyAllKeepsShape(release, k, None, attempts);
  }

  /** What one attempt leaves in the ledger: nothing when the preflight refused or the run died, a success
      without log, or a failure whose log ends with the error that was thrown, cut to the last 32 KiB. */
  lemma {:induction false} AttemptIsRecorded(m: Artifact, a: Attempt)
    ensures (RowFor(m, a) == None) <==> a.PreflightRefused? || a.Killed?
    ensures a.Succeeded? ==> RowFor(m, a) == Some(Record(m.id, m.checksum, true, None))
    ensures a.ThrewError? ==>
              var row := RowFor(m, a).value;
              && row.id == m.id && row.checksum == m.checksum && !row.ok && row.errorLog.Some?
              && 0 < |row.errorLog.value| <= 32768
              && EndsAlike(row.errorLog.value, a.log + ("\nERROR: " + a.message + "\n"))
              && (|a.log| + |a.message| + 9 <= 32768 ==> row.errorLog.value == a.log + ("\nERROR: " + a.message + "\n"))
  {
    if a.ThrewError? {
      assert a.log + "\nERROR: " + a.message + "\n" == a.log + ("\nERROR: " + a.message + "\n");
    }
  }

  /** One text is the end of the other. */
  predicate EndsAlike(end: string, text: string) { |end| <= |text| && text[|text| - |end|..] == end }

  /** How far `up` gets: every success in order up to the first attempt that does not succeed, which is recorded
      when it threw; nothing behind it is tried. */
  lemma {:induction false} UpStopsAtFirst(release: Release, k: nat, n: nat, attempts: string -> Attempt)
    requires Discovered(release) && k + n <= |release.all| && ContractOk(release.contract, release.all)
    requires forall i | k <= i < k + n :: attempts(release.all[i].id).Succeeded?
    requires k + n < |release.all| ==> !attempts(release.all[k + n].id).Succeeded?
    ensures AfterUp(release, Shape(release.all, k, None), false, attempts) == StoppedAt(release.all, k + n, attempts)
  {
    PrefixAcceptance(release, k);
    PendingIsSuffix(release, k, None);
    ApplyStopsAtFirst(release, k, n, attempts);
  }

  /** The first n artifacts succeeded; the next one, if there is any, was tried and did not. */
  function StoppedAt(all: seq<Artifact>, n: nat, attempts: string -> Attempt): seq<Record>
    requires n <= |all|
  {
    if n < |all| && attempts(all[n].id).ThrewError?
    then Map(all[..n], Success) + [Record(all[n].id, all[n].checksum, false, RowFor(all[n], attempts(all[n].id)).value.errorLog)]
    else Map(all[..n], Success)
  }

  lemma {:induction false} ApplyStopsAtFirst(release: Release, k: nat, n: nat, attempts: string -> Attempt)
    requires Discovered(release) && k + n <= |release.all|
    requires forall i | k <= i < k + n :: attempts(release.all[i].id).Succeeded?
    requires k + n < |release.all| ==> !attempts(release.all[k + n].id).Succeeded?
    ensures ApplyAll(Shape(release.all, k, None), release.all[k..], attempts) == StoppedAt(release.all, k + n, attempts)
    decreases n
  {
    if n > 0 {
      OneSuccess(release, k, attempts);
      ApplyStopsAtFirst(release, k + 1, n - 1, attempts);
    } else {
      StopsNow(release, k, attempts);
    }
  }

  lemma {:induction false} OneSuccess(release: Release, k: nat, attempts: string -> Attempt)
    requires Discovered(release) && k < |release.all| && attempts(release.all[k].id).Succeeded?
    ensures ApplyAll(Shape(release.all, k, None), release.all[k..], attempts)
         == ApplyAll(Shape(release.all, k + 1, None), release.all[k + 1..], attempts)
  {
    var due := release.all[k..];
    assert due[0] == release.all[k] && due[1..] == release.all[k + 1..];
    AttemptKeepsShape(release, k, None, attempts(due[0].id));
  }

  lemma {:induction false} StopsNow(release: Release, k: nat, attempts: string -> Attempt)
    requires Discovered(release) && k <= |release.all|
    requires k < |release.all| ==> !attempts(release.all[k].id).Succeeded?
    ensures ApplyAll(Shape(release.all, k, None), release.all[k..], attempts) == StoppedAt(release.all, k, attempts)
  {
    NoMore(Map(release.all[..k], Success));
    if k < |release.all| {
      var due := release.all[k..];
      assert due[0] == release.all[k];
      if attempts(due[0].id).ThrewError? { AttemptKeepsShape(release, k, None, attempts(due[0].id)); }
    }
  }

  /** A dry run and a refused history write nothing. */
  lemma {:induction false} UpWritesNothing(release: Release, ledger: seq<Record>, dryRun: bool, attempts: string -> Attempt)
    requires dryRun || !Acceptable(History(release, ledger))
    ensures AfterUp(release, ledger, dryRun, attempts) == ledger
  {
  }

  /** On a clean prefix the baseline records everything exactly when the database is proven fresh and the
      contract fits; otherwise it writes nothing. */
  lemma {:induction false} BaselineDecides(release: Release, k: nat, provenFresh: bool)
    requires Discovered(release) && k <= |release.all|
    ensures var ledger := Shape(release.all, k, None);
            AfterBaseline(release, ledger, provenFresh)
            == if provenFresh && ContractOk(release.contract, release.all) then Map(release.all, Success) else ledger
  {
    var ledger := Shape(release.all, k, None);
    PrefixAcceptance(release, 0);
    assert Shape(release.all, 0, None) == [];
    assert AllIds(ledger) == SuccessfulIds(ledger);
    PendingIsSuffix(release, k, None);
    PrefixGrows(release.all, k);
    assert release.all[..|release.all|] == release.all;
    NoMore(Map(release.all, Success));
    PrefixRows(release, k);
  }

  lemma {:induction false} PrefixRows(release: Release, k: nat)
    requires k <= |release.all|
    ensures forall r <- Shape(release.all, k, None) :: r.ok && r.errorLog == None && Artifact(r.id, r.checksum) in release.all
  {
    forall r <- Shape(release.all, k, None) ensures r.ok && r.errorLog == None && Artifact(r.id, r.checksum) in release.all {
      NoMore(Map(release.all[..k], Success));
      var m := Preimage(release.all[..k], Success, r);
    }
  }

  /** Four digits, two, two and three, then a name of small letters, digits and dashes, with dashes between. */
  ghost predicate Dated(id: string, year: string, month: string, day: string, number: string, name: string) {
    && id == year + ("-" + (month + ("-" + (day + ("-" + (number + ("-" + name)))))))
    && |year| == 4 && |month| == 2 && |day| == 2 && |number| == 3 && name != ""
    && (forall c <- year + month + day + number :: '0' <= c <= '9')
    && (forall c <- name :: 'a' <= c <= 'z' || '0' <= c <= '9' || c == '-')
  }

  lemma {:induction false} DatedSplits(id: string, year: string, month: string, day: string, number: string, name: string)
    requires Dated(id, year, month, day, number, name)
    ensures |id| > 15 && id[..4] == year && id[4] == '-' && id[5..7] == month && id[7] == '-'
    ensures id[8..10] == day && id[10] == '-' && id[11..14] == number && id[14] == '-' && id[15..] == name
  {
    assert id[5..] == month + ("-" + (day + ("-" + (number + ("-" + name)))));
    assert id[8..] == day + ("-" + (number + ("-" + name)));
    assert id[11..] == number + ("-" + name);
  }

  lemma {:induction false} SafeIdSplits(id: string)
    requires SafeId(id)
    ensures Dated(id, id[..4], id[5..7], id[8..10], id[11..14], id[15..])
  {
    assert id == id[..4] + ("-" + (id[5..7] + ("-" + (id[8..10] + ("-" + (id[11..14] + ("-" + id[15..])))))));
  }

  /** Which ids of a migration a retry accepts. */
  lemma {:induction false} SafeIdsInWords(id: string)
    ensures SafeId(id) <==> exists year, month, day, number, name :: Dated(id, year, month, day, number, name)
  {
    if SafeId(id) { SafeIdSplits(id); }
    forall year, month, day, number, name | Dated(id, year, month, day, number, name) ensures SafeId(id) {
      DatedSplits(id, year, month, day, number, name);
      DatedDigits(year, month, day, number);
    }
  }

  lemma {:induction false} DatedDigits(year: string, month: string, day: string, number: string)
    requires forall c <- year + month + day + number :: '0' <= c <= '9'
    ensures Digits(year) && Digits(month) && Digits(day) && Digits(number)
  {
    var all := year + month + day + number;
    forall i | 0 <= i < |year| ensures '0' <= year[i] <= '9' { assert all[i] in all; }
    forall i | 0 <= i < |month| ensures '0' <= month[i] <= '9' { assert all[|year| + i] in all; }
    forall i | 0 <= i < |day| ensures '0' <= day[i] <= '9' { assert all[|year + month| + i] in all; }
    forall i | 0 <= i < |number| ensures '0' <= number[i] <= '9' { assert all[|year + month + day| + i] in all; }
  }

  /** The failed row a retry is about: recorded under that id and checksum, with an error. */
  predicate FailedAs(id: string, checksum: string, r: Record) {
    r.id == id && r.checksum == checksum && !r.ok && r.errorLog.Some? && r.errorLog.value != ""
  }

  /** The guard of a retry, over any records: one row of that id and no other, a failure with an error under the
      shipped checksum, and nothing recorded behind it. */
  lemma {:induction false} RetryGuardDecides(release: Release, id: string, checksum: string, records: seq<Record>)
    ensures RetryRefused(release, id, checksum, records) == None <==>
              && SafeId(id) && IsSha256(checksum)
              && Once(records, (r: Record) => r.id == id) && (forall r <- records :: r.id == id ==> FailedAs(id, checksum, r))
              && forall r <- records :: !release.less(id, r.id)
  {
    var matching := Filter(records, HasId(id));
    FilterOnce(records, HasId(id));
    SameOnce(records, HasId(id), (r: Record) => r.id == id);
    FilterMembers(records, HasId(id));
    if |matching| == 1 {
      assert matching[0] in matching;
      forall r <- records | r.id == id ensures r == matching[0] {
        assert r in matching;
      }
    }
  }

  /** The baseline, over any ledger: it needs the proof of a fresh database, an acceptable empty history, and only
      clean successes of shipped artifacts; then it records the missing artifacts behind what is there. */
  lemma {:induction false} BaselineGuardDecides(release: Release, ledger: seq<Record>, provenFresh: bool)
    ensures var after := AfterBaseline(release, ledger, provenFresh);
            && (!provenFresh || !Acceptable(History(release, [])) ==> after == ledger)
            && ((exists r <- ledger :: !r.ok || r.errorLog.Some? || Artifact(r.id, r.checksum) !in release.all) ==> after == ledger)
            && (provenFresh && Acceptable(History(release, []))
                && (forall r <- ledger :: r.ok && r.errorLog == None && Artifact(r.id, r.checksum) in release.all) ==>
                  ledger <= after && (forall r <- after[|ledger|..] :: r.ok && r.errorLog == None)
                  && forall m <- release.all :: exists r <- after :: r.id == m.id)
  {
    var missing := Filter(release.all, NotIn(AllIds(ledger)));
    FilterMembers(release.all, NotIn(AllIds(ledger)));
    MapMembers(missing, Success);
    if MayBaseline(release, ledger, provenFresh) {
      var after := ledger + Map(missing, Success);
      assert after[|ledger|..] == Map(missing, Success);
      forall m <- release.all ensures exists r <- after :: r.id == m.id {
        if m.id in AllIds(ledger) {
          var r :| r in ledger && r.id == m.id;
          assert r in after;
        } else {
          assert m in missing;
          assert Success(m) in after;
        }
      }
    }
  }

  // ----------------------------------------------------------------- the runner

  datatype RunResult = Completed | Stopped

  class MigrationsRunner {
    const release: Release
    var ledger: seq<Record>

    constructor (release: Release)
      ensures this.release == release && ledger == []
    {
      this.release := release;
      ledger := [];
    }

    /** prisma.systemMigration.upsert */
    method UpsertRow(row: Record)
      modifies this
      ensures ledger == Upsert(old(ledger), row)
    {
      var i := 0;
      while i < |ledger| && ledger[i].id != row.id
        invariant i <= |ledger|
        invariant forall j | 0 <= j < i :: ledger[j].id != row.id
      {
        i := i + 1;
      }
      UpsertPosition(ledger, row, i);
      if i < |ledger| {
        ledger := ledger[i := row];
      } else {
        ledger := ledger + [row];
      }
    }

    method ApplyOne(m: Artifact, attempt: Attempt) returns (goOn: bool)
      modifies this
      ensures RowFor(m, attempt) == None ==> ledger == old(ledger) && !goOn
      ensures RowFor(m, attempt).Some? ==>
                ledger == Upsert(old(ledger), RowFor(m, attempt).value) && goOn == RowFor(m, attempt).value.ok
    {
      match attempt
      case PreflightRefused => goOn := false;
      case Killed => goOn := false;
      case Succeeded =>
        UpsertRow(Record(m.id, m.checksum, true, None));
        goOn := true;
      case ThrewError(log, message) =>
        var buffer := log + "\nERROR: " + message + "\n";
        UpsertRow(Record(m.id, m.checksum, false,
                         Some(if |buffer| <= MAX_ERROR_LOG then buffer else buffer[|buffer| - MAX_ERROR_LOG..])));
        goOn := false;
    }

    method RunUp(dryRun: bool, attempts: string -> Attempt) returns (result: RunResult)
      modifies this
      ensures ledger == AfterUp(release, old(ledger), dryRun, attempts)
      ensures !dryRun ==> (result == Completed <==> Acceptable(History(release, old(ledger)))
                                                    && forall m <- Pending(release.all, old(ledger)) :: attempts(m.id).Succeeded?)
    {
      var verdict := AssessSystemMigrationHistory(Context(release.all, release.contract, ledger, release.sha256));
      if verdict.Refused? { return Stopped; }
      var appliedIds := set r <- ledger | r.ok :: r.id;
      var pending := Filter(release.all, NotIn(appliedIds));
      if dryRun { return Completed; }
      var i := 0;
      while i < |pending|
        invariant i <= |pending|
        invariant ApplyAll(ledger, pending[i..], attempts) == ApplyAll(old(ledger), pending, attempts)
        invariant forall j | 0 <= j < i :: attempts(pending[j].id).Succeeded?
      {
        assert pending[i..][0] == pending[i] && pending[i..][1..] == pending[i + 1..];
        var goOn := ApplyOne(pending[i], attempts(pending[i].id));
        if !goOn { return Stopped; }
        i := i + 1;
      }
      result := Completed;
    }

    method BaselineRowsMatch() returns (ok: bool)
      ensures ok <==> forall r <- ledger :: r.ok && r.errorLog == None && Artifact(r.id, r.checksum) in release.all
    {
      for i := 0 to |ledger|
        invariant forall j | 0 <= j < i ::
                    ledger[j].ok && ledger[j].errorLog == None && Artifact(ledger[j].id, ledger[j].checksum) in release.all
      {
        var row := ledger[i];
        if !row.ok || row.errorLog != None || Artifact(row.id, row.checksum) !in release.all { return false; }
      }
      ok := true;
    }

    method CreateSuccessRows(pending: seq<Artifact>)
      modifies this
      ensures ledger == old(ledger) + Map(pending, Success)
    {
      for i := 0 to |pending|
        invariant |ledger| == |old(ledger)| + i && ledger[..|old(ledger)|] == old(ledger)
        invariant forall j | 0 <= j < i :: ledger[|old(ledger)| + j] == Success(pending[j])
      {
        ledger := ledger + [Success(pending[i])];
      }
    }

    /** One transaction: it either records every missing artifact or leaves the ledger as it was. */
    method BaselineFreshInstall(provenFresh: bool) returns (result: RunResult)
      modifies this
      ensures ledger == AfterBaseline(release, old(ledger), provenFresh)
      ensures result == Completed <==> MayBaseline(release, old(ledger), provenFresh)
    {
      var verdict := AssessSystemMigrationHistory(Context(release.all, release.contract, [], release.sha256));
      if verdict.Refused? || !provenFresh { return Stopped; }
      var matches := BaselineRowsMatch();
      if !matches { return Stopped; }
      CreateSuccessRows(Filter(release.all, NotIn(AllIds(ledger))));
      result := Completed;
    }

    method RetryTarget(target: Artifact, attempt: Attempt) returns (result: RunResult)
      modifies this
      ensures ledger == if MayRetry(release, old(ledger), target) && RowFor(target, attempt).Some?
                        then Upsert(old(ledger), RowFor(target, attempt).value) else old(ledger)
      ensures result == Completed <==> MayRetry(release, old(ledger), target) && attempt.Succeeded?
    {
      if RetryRefused(release, target.id, target.checksum, ledger) != None { return Stopped; }
      var withoutTarget := Filter(ledger, OtherThan(target.id));
      var verdict := AssessSystemMigrationHistory(Context(release.all, release.contract, withoutTarget, release.sha256));
      if verdict.Refused? { return Stopped; }
      var successfulIds := set r <- withoutTarget | r.ok :: r.id;
      if exists m <- release.all :: release.less(m.id, target.id) && m.id !in successfulIds { return Stopped; }
      var goOn := ApplyOne(target, attempt);
      result := if goOn then Completed else Stopped;
    }

    method RetryFailed(id: string, attempt: Attempt) returns (result: RunResult)
      requires Discovered(release)
      modifies this
      ensures ledger == AfterRetry(release, old(ledger), id, attempt)
      ensures result == Completed <==>
                attempt.Succeeded? && exists m <- release.all :: m.id == id && MayRetry(release, old(ledger), m)
    {
      var target := FindArtifact(id);
      if target == None { return Stopped; }
      result := RetryTarget(target.value, attempt);
    }

    /** `all.find((migration) => migration.id === id)` */
    method FindArtifact(id: string) returns (target: Option<Artifact>)
      requires Discovered(release)
      ensures target == None ==> forall m <- release.all :: m.id != id
      ensures target.Some? ==> target.value in release.all && target.value.id == id
      ensures target.Some? ==> forall m | m in release.all && m.id == id :: m == target.value
    {
      var targetAt := 0;
      while targetAt < |release.all| && release.all[targetAt].id != id
        invariant targetAt <= |release.all|
        invariant forall m <- release.all[..targetAt] :: m.id != id
      {
        targetAt := targetAt + 1;
      }
      if targetAt == |release.all| {
        assert release.all[..targetAt] == release.all;
        return None;
      }
      SameIdSameArtifact(release, targetAt);
      target := Some(release.all[targetAt]);
    }
  }
}
