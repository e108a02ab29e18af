/** The agent's in-memory job table (agent/src/agent-job.runtime.ts).

    Every RuntimeJob object the process ever creates is a slot of `records`, because the
    closures of `execute` (timers, the handler context, the promise continuation) keep
    addressing the object after the table has dropped it. `jobs` is the table itself and
    `order` the insertion order in which a JavaScript Map iterates. */
module AgentJobs {
  import opened Common

  const MAX_ACTIVE_JOBS: nat := 2
  const MAX_RECORDS: nat := 1000
  const RETENTION_MS: int := 60 * 60 * 1000
  const MAX_RESULT_BYTES: nat := 1024 * 1024

  datatype State =
    | STARTING | RUNNING | CANCEL_REQUESTED
    | SUCCEEDED | FAILED | CANCELLED | NEEDS_ATTENTION

  predicate Terminal(s: State) {
    s.SUCCEEDED? || s.FAILED? || s.CANCELLED? || s.NEEDS_ATTENTION?
  }

  datatype Request = Request(
    jobId: string, operationId: string, actionId: string, step: string,
    requestHash: string, deadlineAt: int, cancelSafe: bool)

  datatype Job = Job(
    request: Request, state: State, sequence: nat, progress: int, step: string,
    result: Option<string>, error: Option<string>,
    cancellationRequested: bool, createdAt: int)

  /** What reaches the socket. `rec` names the RuntimeJob object that emitted it. */
  datatype Emission =
    | Started(rec: nat, state: State)
    | Heartbeat(rec: nat, sequence: nat, progress: int, step: string)
    | Result(rec: nat, sequence: nat, success: bool, cancelled: bool,
             result: Option<string>, error: Option<string>)

  datatype StartReply =
    | Accepted(state: State, replayed: bool)
    | Rejected(error: string)
    | Threw(error: string)  // pruneJobs throws out of the socket callback, no reply is sent

  datatype StatusReply =
    | Missing
    | Known(state: State, sequence: nat, progress: int, step: string, result: Option<string>, error: Option<string>)

  datatype CancelReply = NotFound | AlreadyTerminal(state: State) | NotCancellable(state: State) | Requested

  /** How the handler's promise settles. `bytes` is None when JSON.stringify yields undefined. */
  datatype Settlement =
    | Fulfilled(value: string, forbiddenField: bool, bytes: Option<nat>)
    | RejectedWith(message: string)

  datatype Snapshot = Snapshot(
    records: seq<Job>, jobs: map<string, nat>, order: seq<string>,
    handlers: map<string, nat>, attached: bool, wire: seq<Emission>)

  const EMPTY := Snapshot([], map[], [], map[], false, [])

  // ------------------------------------------------------------ specification

  predicate SameIdentity(a: Request, b: Request) {
    a.operationId == b.operationId && a.requestHash == b.requestHash
    && a.actionId == b.actionId && a.step == b.step
  }

  predicate LowerLetter(c: char) { 'a' <= c <= 'z' }
  predicate Digit(c: char) { '0' <= c <= '9' }
  predicate HeadChar(c: char) { LowerLetter(c) || Digit(c) }
  predicate TailChar(c: char) { HeadChar(c) || c == '_' || c == '-' }

  /** How many characters at the start of s pass the test. */
  function RunLength(s: string, test: char -> bool): (n: nat)
    ensures n <= |s| && (forall i | 0 <= i < n :: test(s[i])) && (n < |s| ==> !test(s[n]))
  {
    if s == "" || !test(s[0]) then 0 else 1 + RunLength(s[1..], test)
  }

  /** (?:\.[a-z0-9_-]+)* up to the end of the text */
  predicate DottedTail(s: string)
    decreases |s|
  {
    s == "" || (s[0] == '.' && var n := RunLength(s[1..], TailChar); n > 0 && DottedTail(s[n + 1..]))
  }

  /** The action-id pattern: a lower-case word, then one or more dotted parts. */
  predicate ValidActionId(id: string) {
    id != "" && LowerLetter(id[0])
    && var n := RunLength(id, HeadChar); n < |id| && DottedTail(id[n..])
  }

  /** What context.heartbeat accepts; anything else throws into the handler and changes nothing. */
  predicate ValidReport(step: string, progress: int) {
    && 0 < |step| <= 128 && LowerLetter(step[0])
    && (forall c <- step :: TailChar(c) || c == '.' || c == ':')
    && 0 <= progress <= 100
  }

  predicate Indexed(s: Snapshot) {
    && (forall id <- s.order :: id in s.jobs)
    && (forall id <- s.jobs :: s.jobs[id] < |s.records|)
  }

  predicate ActiveIn(s: Snapshot, id: string) {
    id in s.jobs && s.jobs[id] < |s.records| && !Terminal(s.records[s.jobs[id]].state)
  }

  function ActiveTest(s: Snapshot): string -> bool {
    id => ActiveIn(s, id)
  }

  function Active(s: Snapshot): seq<string> {
    Filter(s.order, ActiveTest(s))
  }

  predicate Prunable(s: Snapshot, id: string, cutoff: int) {
    id in s.jobs && s.jobs[id] < |s.records|
    && Terminal(s.records[s.jobs[id]].state) && s.records[s.jobs[id]].createdAt < cutoff
  }

  function WithoutId(s: Snapshot, id: string): Snapshot {
    s.(jobs := s.jobs - {id}, order := Filter(s.order, other => other != id))
  }

  /** The table after the Map iteration of pruneJobs over the remaining `ids`. */
  function PruneFrom(s: Snapshot, ids: seq<string>, cutoff: int): Snapshot
    decreases |ids|
  {
    if ids == [] then s
    else
      var s1 := if Prunable(s, ids[0], cutoff) then WithoutId(s, ids[0]) else s;
      if |s1.order| < MAX_RECORDS then s1 else PruneFrom(s1, ids[1..], cutoff)
  }

  function Pruned(s: Snapshot, now: int): Snapshot {
    if |s.order| < MAX_RECORDS then s else PruneFrom(s, s.order, now - RETENTION_MS)
  }

  function Send(s: Snapshot, e: Emission): Snapshot {
    if s.attached then s.(wire := s.wire + [e]) else s
  }

  function ResultOf(rec: nat, job: Job): Emission {
    Result(rec, job.sequence, job.state.SUCCEEDED?, job.state.CANCELLED?,
           if job.state.SUCCEEDED? then job.result else None, job.error)
  }

  function EmitResult(s: Snapshot, rec: nat): Snapshot
    requires rec < |s.records|
  {
    var job := s.records[rec].(sequence := s.records[rec].sequence + 1);
    Send(s.(records := s.records[rec := job]), ResultOf(rec, job))
  }

  function EmitHeartbeat(s: Snapshot, rec: nat): Snapshot
    requires rec < |s.records|
  {
    if Terminal(s.records[rec].state) then s
    else
      var job := s.records[rec].(sequence := s.records[rec].sequence + 1);
      Send(s.(records := s.records[rec := job]), Heartbeat(rec, job.sequence, job.progress, job.step))
  }

  function NewJob(request: Request, now: int): Job {
    Job(request, RUNNING, 0, 0, request.step, None, None, false, now)
  }

  function Added(s: Snapshot, request: Request, now: int): Snapshot {
    s.(records := s.records + [NewJob(request, now)],
       jobs := s.jobs[request.jobId := |s.records|],
       order := s.order + [request.jobId])
  }

  /** The end of handleStart, once pruneJobs has left the table `p`. */
  function Admit(p: Snapshot, request: Request, now: int): (Snapshot, StartReply) {
    if |p.order| >= MAX_RECORDS then (p, Threw("Agent job history capacity reached"))
    else (Send(Added(p, request, now), Started(|p.records|, RUNNING)), Accepted(RUNNING, false))
  }

  function StartStep(s: Snapshot, request: Request, now: int): (Snapshot, StartReply)
    requires Indexed(s)
  {
    if request.jobId in s.jobs then
      var rec := s.jobs[request.jobId];
      var job := s.records[rec];
      if !SameIdentity(job.request, request) then (s, Rejected("Agent job idempotency conflict"))
      else (if Terminal(job.state) then EmitResult(s, rec) else s, Accepted(job.state, true))
    else if request.deadlineAt <= now then (s, Rejected("Agent job deadline elapsed"))
    else if |Active(s)| >= MAX_ACTIVE_JOBS then (s, Rejected("Agent job concurrency limit reached"))
    else if request.actionId !in s.handlers then (s, Rejected("Agent job action is not registered"))
    else
      Admit(Pruned(s, now), request, now)
  }

  function RequestCancel(job: Job): Job {
    job.(cancellationRequested := true, state := CANCEL_REQUESTED)
  }

  function CancelStep(s: Snapshot, jobId: string, operationId: string): (Snapshot, CancelReply)
    requires Indexed(s)
  {
    if jobId !in s.jobs || s.records[s.jobs[jobId]].request.operationId != operationId then (s, NotFound)
    else
      var rec := s.jobs[jobId];
      var job := s.records[rec];
      if Terminal(job.state) then (s, AlreadyTerminal(job.state))
      else if !job.request.cancelSafe then (s, NotCancellable(job.state))
      else (s.(records := s.records[rec := RequestCancel(job)]), Requested)
  }

  function DeadlineStep(s: Snapshot, rec: nat): Snapshot
    requires rec < |s.records|
  {
    var job := s.records[rec];
    if !job.request.cancelSafe || Terminal(job.state) then s
    else s.(records := s.records[rec := RequestCancel(job)])
  }

  /** What a status query answers. */
  function StatusOf(s: Snapshot, jobId: string, operationId: string): StatusReply
    requires Indexed(s)
  {
    if jobId !in s.jobs || s.records[s.jobs[jobId]].request.operationId != operationId then Missing
    else
      var job := s.records[s.jobs[jobId]];
      Known(job.state, job.sequence, job.progress, job.step, if job.state.SUCCEEDED? then job.result else None, job.error)
  }

  /** A handler is registered once; its own registration, and no later one, can be taken back. */
  function RegisterStep(s: Snapshot, actionId: string, handler: nat): Snapshot {
    if ValidActionId(actionId) && actionId !in s.handlers then s.(handlers := s.handlers[actionId := handler]) else s
  }

  function UnregisterStep(s: Snapshot, actionId: string, handler: nat): Snapshot {
    if actionId in s.handlers && s.handlers[actionId] == handler then s.(handlers := s.handlers - {actionId}) else s
  }

  /** context.heartbeat(step, progress): the fields change even when nothing is emitted. */
  function ReportStep(s: Snapshot, rec: nat, step: string, progress: int): Snapshot
    requires rec < |s.records|
  {
    if !ValidReport(step, progress) then s
    else EmitHeartbeat(s.(records := s.records[rec := s.records[rec].(step := step, progress := progress)]), rec)
  }

  function Settled(job: Job, outcome: Settlement): Job {
    if job.cancellationRequested then job.(state := CANCELLED, error := Some("Agent job cancelled"))
    else match outcome
      case RejectedWith(message) => job.(state := FAILED, error := Some(message))
      case Fulfilled(value, forbidden, bytes) =>
        if forbidden then job.(state := FAILED, error := Some("Agent job result contains forbidden field"))
        else if bytes == None then job.(state := FAILED, error := Some("Agent job result is not JSON-serializable"))
        else if bytes.value > MAX_RESULT_BYTES then job.(state := FAILED, error := Some("Agent job result exceeds 1 MiB"))
        else job.(state := SUCCEEDED, progress := 100, result := Some(value))
  }

  /** The continuation of `execute` runs once, so it finds the job unfinished. */
  function SettleStep(s: Snapshot, rec: nat, outcome: Settlement): Snapshot
    requires rec < |s.records|
  {
    EmitResult(s.(records := s.records[rec := Settled(s.records[rec], outcome)]), rec)
  }

  datatype Event =
    | Register(actionId: string, handler: nat)
    | Unregister(actionId: string, handler: nat)
    | Attach
    | Detach
    | Start(request: Request, now: int)
    | Cancel(jobId: string, operationId: string)
    | Deadline(rec: nat)
    | Tick(rec: nat)
    | Report(rec: nat, step: string, progress: int)
    | Settle(rec: nat, outcome: Settlement)

  /** Timers and contexts exist only for created jobs; a promise settles only once. */
  predicate Enabled(s: Snapshot, e: Event) {
    match e
    case Deadline(rec) => rec < |s.records|
    case Tick(rec) => rec < |s.records|
    case Report(rec, step, progress) => rec < |s.records|
    case Settle(rec, outcome) => rec < |s.records| && !Terminal(s.records[rec].state)
    case _ => true
  }

  function Step(s: Snapshot, e: Event): Snapshot
    requires Indexed(s) && Enabled(s, e)
  {
    match e
    case Register(actionId, handler) => RegisterStep(s, actionId, handler)
    case Unregister(actionId, handler) => UnregisterStep(s, actionId, handler)
    case Attach => s.(attached := true)
    case Detach => s.(attached := false)
    case Start(request, now) => StartStep(s, request, now).0
    case Cancel(jobId, operationId) => CancelStep(s, jobId, operationId).0
    case Deadline(rec) => DeadlineStep(s, rec)
    case Tick(rec) => EmitHeartbeat(s, rec)
    case Report(rec, step, progress) => ReportStep(s, rec, step, progress)
    case Settle(rec, outcome) => SettleStep(s, rec, outcome)
  }

  // ---------------------------------------------------------------- invariant

  /** The life of one job object. */
  predicate JobOk(job: Job) {
    && !job.state.STARTING? && !job.state.NEEDS_ATTENTION?
    && (job.cancellationRequested <==> job.state.CANCEL_REQUESTED? || job.state.CANCELLED?)
    && (job.cancellationRequested ==> job.request.cancelSafe)
    && (job.result.Some? <==> job.state.SUCCEEDED?)
    && (job.error.Some? <==> job.state.FAILED? || job.state.CANCELLED?)
    && (job.state.CANCELLED? ==> job.error == Some("Agent job cancelled"))
  }

  predicate JobsOk(s: Snapshot) {
    forall r | 0 <= r < |s.records| :: JobOk(s.records[r])
  }

  /** The table and its iteration order list the same ids, each once. */
  ghost predicate OrderOk(s: Snapshot) {
    Distinct(s.order) && Elements(s.order) == s.jobs.Keys
  }

  /** Every entry points at the job object created for its id. */
  ghost predicate RefsOk(s: Snapshot) {
    forall id <- s.jobs :: s.jobs[id] < |s.records| && s.records[s.jobs[id]].request.jobId == id
  }

  predicate Listed(s: Snapshot, rec: nat)
    requires rec < |s.records|
  {
    s.records[rec].request.jobId in s.jobs && s.jobs[s.records[rec].request.jobId] == rec
  }

  /** Unfinished work is never outside the table. */
  ghost predicate RunningListed(s: Snapshot) {
    forall r | 0 <= r < |s.records| && !Terminal(s.records[r].state) :: Listed(s, r)
  }

  ghost predicate CapsOk(s: Snapshot) {
    |s.order| <= MAX_RECORDS && |Active(s)| <= MAX_ACTIVE_JOBS
  }

  ghost predicate TableOk(s: Snapshot) {
    OrderOk(s) && RefsOk(s) && RunningListed(s) && CapsOk(s)
  }

  predicate EmissionOk(records: seq<Job>, e: Emission) {
    && e.rec < |records|
    && (!e.Started? ==> 0 < e.sequence <= records[e.rec].sequence)
    && (e.Result? ==> Terminal(records[e.rec].state)
                      && e == ResultOf(e.rec, records[e.rec].(sequence := e.sequence)))
  }

  /** What a later emission of the same job object must look like. */
  predicate InOrder(earlier: Emission, later: Emission) {
    earlier.rec == later.rec ==>
      && !later.Started?
      && (!earlier.Started? ==> earlier.sequence < later.sequence)
      && (earlier.Result? ==> later.Result?)
  }

  ghost predicate WireOk(s: Snapshot) {
    && (forall i | 0 <= i < |s.wire| :: EmissionOk(s.records, s.wire[i]))
    && (forall i, j | 0 <= i < j < |s.wire| :: InOrder(s.wire[i], s.wire[j]))
  }

  ghost predicate Inv(s: Snapshot) {
    && TableOk(s)
    && JobsOk(s)
    && WireOk(s)
  }

  // -------------------------------------------------------- single-step proofs

  lemma {:induction false} FilterShrinks<T>(s: seq<T>, keep: T -> bool, keep': T -> bool)
    requires forall x <- s :: keep'(x) ==> keep(x)
    ensures |Filter(s, keep')| <= |Filter(s, keep)|
  {
    if s != [] {
      FilterShrinks(s[1..], keep, keep');
    }
  }

  /** Removing the one occurrence of an element: everything else stays, in order. */
  lemma {:induction false} DropOneId(s: seq<string>, id: string)
    requires Distinct(s)
    ensures var r := Filter(s, other => other != id);
            && Distinct(r) && |r| == (if id in s then |s| - 1 else |s|)
            && forall x :: x in r <==> x in s && x != id
  {
    if s != [] {
      DropOneId(s[1..], id);
      assert s == [s[0]] + s[1..];
      assert s[0] !in s[1..];
    }
  }

  lemma {:induction false} FilterTwice(s: seq<string>, a: string -> bool, b: string -> bool)
    ensures |Filter(Filter(s, a), b)| <= |Filter(s, b)|
  {
    if s != [] {
      FilterTwice(s[1..], a, b);
      FilterAppend(if a(s[0]) then [s[0]] else [], Filter(s[1..], a), b);
    }
  }

  /** A later version of the same job object. */
  ghost predicate Evolves(before: Job, after: Job) {
    && after.request == before.request && after.createdAt == before.createdAt
    && before.sequence <= after.sequence
    && (before.cancellationRequested ==> after.cancellationRequested)
    && (Terminal(before.state) ==>
          after.state == before.state && after.result == before.result && after.error == before.error)
  }

  lemma {:induction false} UpdateKeepsCaps(s: Snapshot, rec: nat, job: Job)
    requires CapsOk(s) && rec < |s.records| && Evolves(s.records[rec], job)
    ensures CapsOk(s.(records := s.records[rec := job]))
  {
    var t := s.(records := s.records[rec := job]);
    FilterShrinks(s.order, ActiveTest(s), ActiveTest(t));
  }

  lemma {:induction false} UpdateKeepsTable(s: Snapshot, rec: nat, job: Job)
    requires TableOk(s) && rec < |s.records| && Evolves(s.records[rec], job)
    ensures TableOk(s.(records := s.records[rec := job]))
  {
    var t := s.(records := s.records[rec := job]);
    UpdateKeepsCaps(s, rec, job);
    forall r | 0 <= r < |t.records| && !Terminal(t.records[r].state) ensures Listed(t, r) {
      assert Listed(s, r);
    }
  }

  lemma {:induction false} UpdateKeepsInv(s: Snapshot, rec: nat, job: Job)
    requires Inv(s) && rec < |s.records|
    requires JobOk(job) && Evolves(s.records[rec], job)
    ensures Inv(s.(records := s.records[rec := job]))
  {
    UpdateKeepsTable(s, rec, job);
  }

  /** A change of socket, wire or handlers leaves the table as it was. */
  lemma {:induction false} SameTable(s: Snapshot, t: Snapshot)
    requires TableOk(s) && t.records == s.records && t.jobs == s.jobs && t.order == s.order
    ensures TableOk(t) && |Active(t)| == |Active(s)|
  {
    FilterShrinks(s.order, ActiveTest(s), ActiveTest(t));
    FilterShrinks(s.order, ActiveTest(t), ActiveTest(s));
  }

  ghost predicate Newest(s: Snapshot, e: Emission) {
    forall i | 0 <= i < |s.wire| :: InOrder(s.wire[i], e)
  }

  lemma {:induction false} SendKeepsInv(s: Snapshot, e: Emission)
    requires Inv(s) && EmissionOk(s.records, e) && Newest(s, e)
    ensures Inv(Send(s, e))
  {
    SameTable(s, Send(s, e));
  }

  lemma {:induction false} EmitResultKeepsInv(s: Snapshot, rec: nat)
    requires Inv(s) && rec < |s.records| && Terminal(s.records[rec].state)
    ensures Inv(EmitResult(s, rec))
  {
    var job := s.records[rec].(sequence := s.records[rec].sequence + 1);
    UpdateKeepsInv(s, rec, job);
    var t := s.(records := s.records[rec := job]);
    SendKeepsInv(t, ResultOf(rec, job));
  }

  lemma {:induction false} EmitHeartbeatKeepsInv(s: Snapshot, rec: nat)
    requires Inv(s) && rec < |s.records|
    ensures Inv(EmitHeartbeat(s, rec))
  {
    if !Terminal(s.records[rec].state) {
      var job := s.records[rec].(sequence := s.records[rec].sequence + 1);
      UpdateKeepsInv(s, rec, job);
      var t := s.(records := s.records[rec := job]);
      SendKeepsInv(t, Heartbeat(rec, job.sequence, job.progress, job.step));
    }
  }

  lemma {:induction false} WithoutIdKeepsOrder(s: Snapshot, id: string)
    requires OrderOk(s) && id in s.jobs
    ensures OrderOk(WithoutId(s, id)) && |WithoutId(s, id).order| == |s.order| - 1
  {
    DropOneId(s.order, id);
    assert id in Elements(s.order);
  }

  lemma {:induction false} WithoutIdKeepsInv(s: Snapshot, id: string)
    requires Inv(s) && id in s.jobs && Terminal(s.records[s.jobs[id]].state)
    ensures Inv(WithoutId(s, id))
    ensures |WithoutId(s, id).order| == |s.order| - 1
    ensures |Active(WithoutId(s, id))| <= |Active(s)|
  {
    var t := WithoutId(s, id);
    WithoutIdKeepsOrder(s, id);
    ActiveWithout(s, id);
    forall r | 0 <= r < |t.records| && !Terminal(t.records[r].state) ensures Listed(t, r) {
      assert Listed(s, r);
    }
  }

  lemma {:induction false} ActiveWithout(s: Snapshot, id: string)
    ensures |Active(WithoutId(s, id))| <= |Active(s)|
  {
    var t := WithoutId(s, id);
    FilterTwice(s.order, other => other != id, ActiveTest(s));
    FilterShrinks(t.order, ActiveTest(s), ActiveTest(t));
  }

  /** pruneJobs drops at most one record, and only a finished one older than an hour. */
  lemma {:induction false} PruneFromDropsOne(s: Snapshot, ids: seq<string>, cutoff: int)
    requires Inv(s) && |s.order| == MAX_RECORDS
    ensures var t := PruneFrom(s, ids, cutoff);
            && Inv(t) && |Active(t)| <= |Active(s)|
            && (t == s || exists id <- ids :: Prunable(s, id, cutoff) && t == WithoutId(s, id))
            && (|t.order| >= MAX_RECORDS <==> forall id <- ids :: !Prunable(s, id, cutoff))
    decreases |ids|
  {
    if ids != [] {
      if Prunable(s, ids[0], cutoff) {
        WithoutIdKeepsInv(s, ids[0]);
      } else {
        PruneFromDropsOne(s, ids[1..], cutoff);
      }
    }
  }

  lemma {:induction false} PruneDropsOne(s: Snapshot, now: int)
    requires Inv(s)
    ensures var t := Pruned(s, now);
            && Inv(t) && |Active(t)| <= |Active(s)|
            && (t == s || exists id :: Prunable(s, id, now - RETENTION_MS) && t == WithoutId(s, id))
            && (|t.order| >= MAX_RECORDS <==>
                  |s.order| == MAX_RECORDS && forall id <- s.jobs :: !Prunable(s, id, now - RETENTION_MS))
  {
    if |s.order| >= MAX_RECORDS {
      PruneFromDropsOne(s, s.order, now - RETENTION_MS);
    }
  }

  lemma {:induction false} ActiveAdded(s: Snapshot, request: Request, now: int)
    requires TableOk(s) && request.jobId !in s.jobs
    ensures |Active(Added(s, request, now))| <= |Active(s)| + 1
  {
    var t := Added(s, request, now);
    FilterAppend(s.order, [request.jobId], ActiveTest(t));
    FilterShrinks(s.order, ActiveTest(s), ActiveTest(t));
  }

  lemma {:induction false} AddKeepsInv(s: Snapshot, request: Request, now: int)
    requires Inv(s) && request.jobId !in s.jobs
    requires |s.order| < MAX_RECORDS && |Active(s)| < MAX_ACTIVE_JOBS
    ensures Inv(Added(s, request, now))
  {
    var t := Added(s, request, now);
    ActiveAdded(s, request, now);
    forall r | 0 <= r < |t.records| && !Terminal(t.records[r].state) ensures Listed(t, r) {
      assert r < |s.records| ==> Listed(s, r);
    }
  }

  lemma {:induction false} AdmitKeepsInv(s: Snapshot, request: Request, now: int)
    requires Inv(s) && request.jobId !in s.jobs && |Active(s)| < MAX_ACTIVE_JOBS
    ensures Inv(Admit(s, request, now).0)
  {
    if |s.order| < MAX_RECORDS {
      AddKeepsInv(s, request, now);
      var e := Started(|s.records|, RUNNING);
      assert forall i | 0 <= i < |s.wire| :: EmissionOk(s.records, s.wire[i]);
      SendKeepsInv(Added(s, request, now), e);
    }
  }

  lemma {:induction false} ReplayKeepsInv(s: Snapshot, request: Request, now: int)
    requires Inv(s) && request.jobId in s.jobs
    ensures Inv(StartStep(s, request, now).0)
  {
    var rec := s.jobs[request.jobId];
    if SameIdentity(s.records[rec].request, request) && Terminal(s.records[rec].state) {
      EmitResultKeepsInv(s, rec);
    }
  }

  lemma {:induction false} PruneKeepsInv(s: Snapshot, now: int)
    requires Inv(s)
    ensures Inv(Pruned(s, now)) && |Active(Pruned(s, now))| <= |Active(s)|
    ensures Pruned(s, now).jobs.Keys <= s.jobs.Keys
  {
    PruneDropsOne(s, now);
  }

  lemma {:induction false} FreshStartKeepsInv(s: Snapshot, request: Request, now: int)
    requires Inv(s) && request.jobId !in s.jobs
    ensures Inv(StartStep(s, request, now).0)
  {
    var after := StartStep(s, request, now).0;
    if after != s {
      assert |Active(s)| < MAX_ACTIVE_JOBS && after == Admit(Pruned(s, now), request, now).0;
      PruneKeepsInv(s, now);
      AdmitKeepsInv(Pruned(s, now), request, now);
    }
  }

  lemma {:induction false} CancelKeepsInv(s: Snapshot, jobId: string, operationId: string)
    requires Inv(s)
    ensures Inv(CancelStep(s, jobId, operationId).0)
  {
    if CancelStep(s, jobId, operationId).1.Requested? {
      UpdateKeepsInv(s, s.jobs[jobId], RequestCancel(s.records[s.jobs[jobId]]));
    }
  }

  lemma {:induction false} DeadlineKeepsInv(s: Snapshot, rec: nat)
    requires Inv(s) && rec < |s.records|
    ensures Inv(DeadlineStep(s, rec))
  {
    if s.records[rec].request.cancelSafe && !Terminal(s.records[rec].state) {
      UpdateKeepsInv(s, rec, RequestCancel(s.records[rec]));
    }
  }

  lemma {:induction false} ReportKeepsInv(s: Snapshot, rec: nat, step: string, progress: int)
    requires Inv(s) && rec < |s.records|
    ensures Inv(ReportStep(s, rec, step, progress))
  {
    var job := s.records[rec].(step := step, progress := progress);
    UpdateKeepsInv(s, rec, job);
    EmitHeartbeatKeepsInv(s.(records := s.records[rec := job]), rec);
  }

  lemma {:induction false} SettleKeepsInv(s: Snapshot, rec: nat, outcome: Settlement)
    requires Inv(s) && rec < |s.records| && !Terminal(s.records[rec].state)
    ensures Inv(SettleStep(s, rec, outcome))
  {
    var job := Settled(s.records[rec], outcome);
    UpdateKeepsInv(s, rec, job);
    EmitResultKeepsInv(s.(records := s.records[rec := job]), rec);
  }

  /** Main invariant: every event keeps the whole table, every job object and the wire lawful. */
  lemma {:induction false} StepKeepsInv(s: Snapshot, e: Event)
    requires Inv(s) && Enabled(s, e)
    ensures Inv(Step(s, e))
  {
    match e {
      case Start(request, now) =>
        if request.jobId in s.jobs { ReplayKeepsInv(s, request, now); } else { FreshStartKeepsInv(s, request, now); }
      case Cancel(jobId, operationId) => CancelKeepsInv(s, jobId, operationId);
      case Deadline(rec) => DeadlineKeepsInv(s, rec);
      case Tick(rec) => EmitHeartbeatKeepsInv(s, rec);
      case Report(rec, step, progress) => ReportKeepsInv(s, rec, step, progress);
      case Settle(rec, outcome) => SettleKeepsInv(s, rec, outcome);
      case _ => SameTable(s, Step(s, e));
    }
  }

  // ------------------------------------------------------------- whole runs

  /** Every job object lives on, only moving forward; the wire only grows. */
  ghost predicate Follows(before: Snapshot, after: Snapshot) {
    && |before.records| <= |after.records|
    && (forall r | 0 <= r < |before.records| :: Evolves(before.records[r], after.records[r]))
    && before.wire <= after.wire
  }

  lemma {:induction false} InvIndexed(s: Snapshot)
    requires Inv(s)
    ensures Indexed(s)
  {
    forall id <- s.order ensures id in s.jobs {
      assert id in Elements(s.order);
    }
  }

  lemma {:induction false} PruneFromKeepsObjects(s: Snapshot, ids: seq<string>, cutoff: int)
    ensures var t := PruneFrom(s, ids, cutoff);
            && t.records == s.records && t.wire == s.wire
            && t.handlers == s.handlers && t.attached == s.attached
    decreases |ids|
  {
    if ids != [] {
      var t := if Prunable(s, ids[0], cutoff) then WithoutId(s, ids[0]) else s;
      PruneFromKeepsObjects(t, ids[1..], cutoff);
    }
  }

  lemma {:induction false} FollowsTransitive(s: Snapshot, t: Snapshot, u: Snapshot)
    requires Follows(s, t) && Follows(t, u)
    ensures Follows(s, u)
  {
    forall r | 0 <= r < |s.records| ensures Evolves(s.records[r], u.records[r]) {
      assert Evolves(s.records[r], t.records[r]) && Evolves(t.records[r], u.records[r]);
    }
  }

  lemma {:induction false} UpdateFollows(s: Snapshot, rec: nat, job: Job)
    requires rec < |s.records| && Evolves(s.records[rec], job)
    ensures Follows(s, s.(records := s.records[rec := job]))
  {
  }

  lemma {:induction false} EmitFollows(s: Snapshot, rec: nat)
    requires rec < |s.records|
    ensures Follows(s, EmitResult(s, rec)) && Follows(s, EmitHeartbeat(s, rec))
  {
  }

  lemma {:induction false} PrunedKeepsObjects(s: Snapshot, now: int)
    ensures var t := Pruned(s, now);
            && t.records == s.records && t.wire == s.wire
            && t.handlers == s.handlers && t.attached == s.attached
  {
    PruneFromKeepsObjects(s, s.order, now - RETENTION_MS);
  }

  lemma {:induction false} AddFollows(s: Snapshot, p: Snapshot, request: Request, now: int, e: Emission)
    requires p.records == s.records && p.wire == s.wire
    ensures Follows(s, Send(Added(p, request, now), e))
  {
  }

  lemma {:induction false} StartFollows(s: Snapshot, request: Request, now: int)
    requires Indexed(s)
    ensures Follows(s, StartStep(s, request, now).0)
  {
    if request.jobId in s.jobs {
      EmitFollows(s, s.jobs[request.jobId]);
    } else {
      PrunedKeepsObjects(s, now);
      AddFollows(s, Pruned(s, now), request, now, Started(|s.records|, RUNNING));
    }
  }

  lemma {:induction false} StepFollows(s: Snapshot, e: Event)
    requires Indexed(s) && Enabled(s, e)
    ensures Follows(s, Step(s, e))
  {
    match e {
      case Start(request, now) => StartFollows(s, request, now);
      case Tick(rec) => EmitFollows(s, rec);
      case Report(rec, step, progress) =>
        if !ValidReport(step, progress) { return; }
        var job := s.records[rec].(step := step, progress := progress);
        var t := s.(records := s.records[rec := job]);
        UpdateFollows(s, rec, job);
        EmitFollows(t, rec);
        FollowsTransitive(s, t, Step(s, e));
      case Settle(rec, outcome) =>
        var job := Settled(s.records[rec], outcome);
        var t := s.(records := s.records[rec := job]);
        UpdateFollows(s, rec, job);
        EmitFollows(t, rec);
        FollowsTransitive(s, t, Step(s, e));
      case _ =>
    }
  }

  ghost predicate Possible(s: Snapshot, events: seq<Event>)
    decreases |events|
  {
    events == [] || (Indexed(s) && Enabled(s, events[0]) && Possible(Step(s, events[0]), events[1..]))
  }

  ghost function Run(s: Snapshot, events: seq<Event>): Snapshot
    requires Possible(s, events)
    decreases |events|
  {
    if events == [] then s else Run(Step(s, events[0]), events[1..])
  }

  /** The guard Indexed inside Possible never blocks (InvIndexed): only the events' own guards matter. */
  lemma {:induction false} RunKeepsInv(s: Snapshot, events: seq<Event>)
    requires Inv(s) && Possible(s, events)
    ensures Inv(Run(s, events)) && Follows(s, Run(s, events))
    decreases |events|
  {
    if events != [] {
      var t := Step(s, events[0]);
      StepKeepsInv(s, events[0]);
      InvIndexed(s);
      StepFollows(s, events[0]);
      RunKeepsInv(t, events[1..]);
      FollowsTransitive(s, t, Run(s, events));
    }
  }

  lemma {:induction false} EmptyIsLawful()
    ensures Inv(EMPTY)
  {
    assert Active(EMPTY) == [];
  }

  /** Once finished, a job's state, result and error are what they are in every later state. */
  lemma {:induction false} TerminalNeverChanges(s: Snapshot, events: seq<Event>, rec: nat)
    requires Inv(s) && Possible(s, events) && rec < |s.records| && Terminal(s.records[rec].state)
    ensures var t := Run(s, events);
            && rec < |t.records| && t.records[rec].state == s.records[rec].state
            && t.records[rec].result == s.records[rec].result && t.records[rec].error == s.records[rec].error
  {
    RunKeepsInv(s, events);
    assert Evolves(s.records[rec], Run(s, events).records[rec]);
  }

  /** A job whose cancellation was requested is cancel-safe and never ends any other way. */
  lemma {:induction false} CancelRequestedNeverSucceeds(s: Snapshot, events: seq<Event>, rec: nat)
    requires Inv(s) && Possible(s, events) && rec < |s.records| && s.records[rec].cancellationRequested
    ensures var t := Run(s, events);
            && rec < |t.records| && t.records[rec].request.cancelSafe
            && (t.records[rec].state == CANCEL_REQUESTED || t.records[rec].state == CANCELLED)
  {
    RunKeepsInv(s, events);
    assert Evolves(s.records[rec], Run(s, events).records[rec]);
    assert JobOk(Run(s, events).records[rec]);
  }

  predicate SameOutcome(a: Emission, b: Emission) {
    a.Result? && b.Result? && a.success == b.success && a.cancelled == b.cancelled
    && a.result == b.result && a.error == b.error
  }

  /** What a listener may rely on, over any run from start-up: per job object the sequence
      numbers strictly increase, nothing but results follows the first result, and all
      results, replays included, report one outcome. */
  lemma {:induction false} WireIsCoherent(events: seq<Event>, i: nat, j: nat)
    requires Possible(EMPTY, events)
    requires var w := Run(EMPTY, events).wire; i < j < |w| && w[i].rec == w[j].rec && !w[i].Started?
    ensures var w := Run(EMPTY, events).wire;
            && !w[j].Started? && w[i].sequence < w[j].sequence
            && (w[i].Result? ==> w[j].Result? && SameOutcome(w[i], w[j]))
  {
    EmptyIsLawful();
    RunKeepsInv(EMPTY, events);
    var t := Run(EMPTY, events);
    assert EmissionOk(t.records, t.wire[i]) && EmissionOk(t.records, t.wire[j]);
    assert InOrder(t.wire[i], t.wire[j]);
  }

  /** At most two handlers are unfinished at any time, counting job objects the table has dropped. */
  lemma {:induction false} RunningAtMostTwo(events: seq<Event>, running: set<nat>)
    requires Possible(EMPTY, events)
    requires forall r <- running ::
               r < |Run(EMPTY, events).records| && !Terminal(Run(EMPTY, events).records[r].state)
    ensures |running| <= MAX_ACTIVE_JOBS && |Run(EMPTY, events).order| <= MAX_RECORDS
  {
    EmptyIsLawful();
    RunKeepsInv(EMPTY, events);
    var t := Run(EMPTY, events);
    var active := Active(t);
    FilterMembers(t.order, ActiveTest(t));
    forall r <- running ensures t.records[r].request.jobId in active && Listed(t, r) {
      assert Listed(t, r);
      assert t.records[r].request.jobId in Elements(t.order);
    }
    DistinctIdsBound(t, running, active);
  }

  lemma {:induction false} DistinctIdsBound(t: Snapshot, running: set<nat>, ids: seq<string>)
    requires forall r <- running :: r < |t.records| && Listed(t, r) && t.records[r].request.jobId in ids
    ensures |running| <= |ids|
    decreases |ids|
  {
    if ids == [] {
      assert running == {};
    } else {
      var hit := set r | r in running && t.records[r].request.jobId == ids[0];
      assert |hit| <= 1 by {
        if hit != {} {
          var r :| r in hit;
          assert hit == {r};
        }
      }
      DistinctIdsBound(t, running - hit, ids[1..]);
      assert |running - hit| >= |running| - |hit|;
    }
  }

  /** A handler runs exactly when a job object is created, and then its id was not in the table. */
  lemma {:induction false} HandlerRunsOncePerRecord(s: Snapshot, e: Event)
    requires Indexed(s) && Enabled(s, e)
    ensures var t := Step(s, e);
            |t.records| != |s.records| ==>
              && e.Start? && e.request.jobId !in s.jobs
              && |t.records| == |s.records| + 1
              && t.records[|s.records|] == NewJob(e.request, e.now)
              && e.request.actionId in s.handlers && e.now < e.request.deadlineAt
  {
    if e.Start? {
      PrunedKeepsObjects(s, e.now);
    }
  }

  /** Replaying a known start never runs the handler and only re-sends a finished result;
      reusing the id for other work is refused and changes nothing at all. */
  lemma {:induction false} ReplayIsIdempotent(s: Snapshot, request: Request, now: int)
    requires Inv(s) && request.jobId in s.jobs
    ensures var (t, reply) := StartStep(s, request, now);
            var rec := s.jobs[request.jobId];
            && t.jobs == s.jobs && t.order == s.order && |t.records| == |s.records|
            && (forall r | 0 <= r < |s.records| && r != rec :: t.records[r] == s.records[r])
            && (var known := s.records[rec].request;
                reply.Accepted? <==> known.operationId == request.operationId && known.requestHash == request.requestHash
                                     && known.actionId == request.actionId && known.step == request.step)
            && (!reply.Accepted? ==> reply.Rejected?)
            && (reply.Rejected? ==> t == s)
            && (reply.Accepted? ==>
                  && reply == Accepted(s.records[rec].state, true)
                  && t.records[rec] == s.records[rec].(sequence := t.records[rec].sequence)
                  && t.wire == s.wire + (if Terminal(s.records[rec].state) && s.attached then [ResultOf(rec, t.records[rec])] else []))
  {
  }

  // --------------------------------------------------- what each event comes to

  /** Only one job object changed, and only in what `job` says. */
  ghost predicate OnlyChanged(s: Snapshot, t: Snapshot, rec: nat, job: Job) {
    && rec < |s.records| && t.records == s.records[rec := job]
    && t.jobs == s.jobs && t.order == s.order && t.handlers == s.handlers && t.attached == s.attached
  }

  /** Exactly this was sent, if a socket is attached. */
  ghost predicate Sent(s: Snapshot, t: Snapshot, e: Emission) {
    t.wire == s.wire + if s.attached then [e] else []
  }

  /** How a job that was `before` ends as `after`. */
  predicate Concluded(before: Job, outcome: Settlement, after: Job) {
    var clean := outcome.Fulfilled? && !outcome.forbiddenField && outcome.bytes.Some? && outcome.bytes.value <= 1_048_576;
    && after.state in {SUCCEEDED, FAILED, CANCELLED}
    && (after.state == CANCELLED <==> before.state == CANCEL_REQUESTED)
    && (after.state == SUCCEEDED <==> before.state != CANCEL_REQUESTED && clean)
    && after.result == (if after.state == SUCCEEDED then Some(outcome.value) else None)
    && after.progress == (if after.state == SUCCEEDED then 100 else before.progress)
    && (after.state == SUCCEEDED ==> after.error == None)
    && (after.state == CANCELLED ==> after.error == Some("Agent job cancelled"))
    && (after.state == FAILED && outcome.RejectedWith? ==> after.error == Some(outcome.message))
    && (after.state == FAILED && outcome.Fulfilled? ==>
          after.error == Some(if outcome.forbiddenField then "Agent job result contains forbidden field"
                              else if outcome.bytes == None then "Agent job result is not JSON-serializable"
                              else "Agent job result exceeds 1 MiB"))
    && after.step == before.step && after.request == before.request
  }

  lemma {:induction false} SettledConcludes(before: Job, outcome: Settlement, sequence: nat)
    requires JobOk(before) && !Terminal(before.state)
    ensures Concluded(before, outcome, Settled(before, outcome).(sequence := sequence))
  {
  }

  lemma {:induction false} SettleShape(s: Snapshot, rec: nat, outcome: Settlement, after: Job)
    requires rec < |s.records| && after == Settled(s.records[rec], outcome).(sequence := s.records[rec].sequence + 1)
    ensures var t := SettleStep(s, rec, outcome); OnlyChanged(s, t, rec, after) && Sent(s, t, ResultOf(rec, after))
  {
  }

  lemma {:induction false} ResultReports(rec: nat, before: Job, outcome: Settlement, after: Job)
    requires Concluded(before, outcome, after)
    ensures ResultOf(rec, after)
         == Result(rec, after.sequence, after.state == SUCCEEDED, after.state == CANCELLED, after.result, after.error)
  {
  }

  /** A requested cancel wins whatever the handler did; otherwise the job succeeds exactly when the handler
      fulfilled with a clean value of at most 1 MiB, and fails with the reason otherwise. The listener is told
      exactly that. */
  lemma {:induction false} SettlementDecides(s: Snapshot, rec: nat, outcome: Settlement)
    requires JobsOk(s) && Indexed(s) && rec < |s.records| && !Terminal(s.records[rec].state)
    ensures var t := Step(s, Settle(rec, outcome));
            && rec < |t.records| && OnlyChanged(s, t, rec, t.records[rec])
            && var before, after := s.records[rec], t.records[rec];
            && Concluded(before, outcome, after) && after.sequence == before.sequence + 1
            && Sent(s, t, Result(rec, before.sequence + 1, after.state == SUCCEEDED, after.state == CANCELLED, after.result, after.error))
  {
    var before := s.records[rec];
    var after := Settled(before, outcome).(sequence := before.sequence + 1);
    assert JobOk(before);
    SettledConcludes(before, outcome, before.sequence + 1);
    SettleShape(s, rec, outcome, after);
    ResultReports(rec, before, outcome, after);
  }

  /** A cancel, and a deadline that runs out, ask exactly the unfinished cancel-safe job to stop. */
  lemma {:induction false} CancelDecides(s: Snapshot, jobId: string, operationId: string)
    requires Inv(s) && Indexed(s)
    ensures var (t, reply) := CancelStep(s, jobId, operationId);
            t == Step(s, Cancel(jobId, operationId))
            && if jobId !in s.jobs || s.records[s.jobs[jobId]].request.operationId != operationId then reply == NotFound && t == s
               else
                 var rec := s.jobs[jobId];
                 var job := s.records[rec];
                 if job.state in {SUCCEEDED, FAILED, CANCELLED} then reply == AlreadyTerminal(job.state) && t == s
                 else if !job.request.cancelSafe then reply == NotCancellable(job.state) && t == s
                 else
                   && reply == Requested && t.wire == s.wire && t == Step(s, Deadline(rec))
                   && OnlyChanged(s, t, rec, job.(state := CANCEL_REQUESTED, cancellationRequested := true))
  {
    if jobId in s.jobs { assert JobOk(s.records[s.jobs[jobId]]); }
  }

  lemma {:induction false} DeadlineDecides(s: Snapshot, rec: nat)
    requires Inv(s) && Indexed(s) && rec < |s.records|
    ensures var job, t := s.records[rec], Step(s, Deadline(rec));
            if job.request.cancelSafe && job.state !in {SUCCEEDED, FAILED, CANCELLED}
            then t.wire == s.wire && OnlyChanged(s, t, rec, job.(state := CANCEL_REQUESTED, cancellationRequested := true))
            else t == s
  {
    assert JobOk(s.records[rec]);
  }

  /** A step of 1 to 128 characters that starts with a letter, and a percentage. */
  predicate Reportable(step: string, progress: int) {
    && 1 <= |step| < 129 && 'a' <= step[0] <= 'z' && 0 <= progress < 101
    && forall i | 0 <= i < |step| :: 'a' <= step[i] <= 'z' || '0' <= step[i] <= '9' || step[i] in {'.', '_', ':', '-'}
  }

  lemma {:induction false} ReportsInWords(step: string, progress: int)
    ensures ValidReport(step, progress) <==> Reportable(step, progress)
  {
    if ValidReport(step, progress) {
      forall i | 0 <= i < |step| ensures 'a' <= step[i] <= 'z' || '0' <= step[i] <= '9' || step[i] in {'.', '_', ':', '-'} {
        assert step[i] in step;
      }
    }
  }

  /** An unfinished job is heard at every tick and every valid report, under the next sequence number. */
  lemma {:induction false} HeartbeatDecides(s: Snapshot, rec: nat, step: string, progress: int)
    requires Inv(s) && Indexed(s) && rec < |s.records|
    ensures var job := s.records[rec];
            var ticked, reported, next := Step(s, Tick(rec)), Step(s, Report(rec, step, progress)), job.sequence + 1;
            && (job.state in {SUCCEEDED, FAILED, CANCELLED} ==> ticked == s)
            && (!Reportable(step, progress) ==> reported == s)
            && (job.state !in {SUCCEEDED, FAILED, CANCELLED} ==>
                  && OnlyChanged(s, ticked, rec, job.(sequence := next))
                  && Sent(s, ticked, Heartbeat(rec, next, job.progress, job.step))
                  && (Reportable(step, progress) ==>
                        && OnlyChanged(s, reported, rec, job.(sequence := next, step := step, progress := progress))
                        && Sent(s, reported, Heartbeat(rec, next, progress, step))))
  {
    ReportsInWords(step, progress);
    assert JobOk(s.records[rec]);
  }

  /** The jobs of the table that have not ended. */
  ghost function Unfinished(s: Snapshot): set<string>
    requires Indexed(s)
  {
    set id | id in s.jobs && s.records[s.jobs[id]].state !in {SUCCEEDED, FAILED, CANCELLED}
  }

  lemma {:induction false} ActiveAreUnfinished(s: Snapshot)
    requires Inv(s) && Indexed(s)
    ensures |Active(s)| == |Unfinished(s)|
  {
    FilterMembers(s.order, ActiveTest(s));
    DistinctFilter(s.order, ActiveTest(s));
    DistinctSize(Active(s));
    forall id ensures id in Elements(Active(s)) <==> id in Unfinished(s) {
      if id in s.jobs {
        assert JobOk(s.records[s.jobs[id]]);
        assert id in Elements(s.order);
      }
    }
    assert Elements(Active(s)) == Unfinished(s);
  }

  lemma {:induction false} DistinctFilter(s: seq<string>, keep: string -> bool)
    requires Distinct(s)
    ensures Distinct(Filter(s, keep))
  {
    if s != [] {
      assert s[0] !in s[1..];
      DistinctFilter(s[1..], keep);
      FilterMembers(s[1..], keep);
      if keep(s[0]) { DistinctAppend([s[0]], Filter(s[1..], keep)); }
    }
  }

  /** A record old enough to make room. */
  ghost predicate CanMakeRoom(s: Snapshot, now: int)
    requires Indexed(s)
  {
    exists id :: id in s.jobs && s.records[s.jobs[id]].state in {SUCCEEDED, FAILED, CANCELLED}
                 && s.records[s.jobs[id]].createdAt < now - 3_600_000
  }

  lemma {:induction false} RoomMeansPrunable(s: Snapshot, now: int)
    requires Inv(s) && Indexed(s)
    ensures CanMakeRoom(s, now) <==> exists id <- s.jobs :: Prunable(s, id, now - RETENTION_MS)
  {
    forall id | id in s.jobs
      ensures Prunable(s, id, now - RETENTION_MS) <==>
                s.records[s.jobs[id]].state in {SUCCEEDED, FAILED, CANCELLED} && s.records[s.jobs[id]].createdAt < now - 3_600_000
    {
      assert JobOk(s.records[s.jobs[id]]);
    }
  }

  /** What becomes of a start with a new id: the first objection refuses it and nothing changes; without one
      it is recorded as running from the beginning, announced, and keeps every record but at most an old one. */
  lemma {:induction false} StartDecides(s: Snapshot, request: Request, now: int)
    requires Inv(s) && Indexed(s) && request.jobId !in s.jobs
    ensures var (t, reply) := StartStep(s, request, now);
            && t == Step(s, Start(request, now))
            && reply == (if request.deadlineAt <= now then Rejected("Agent job deadline elapsed")
                         else if |Unfinished(s)| >= 2 then Rejected("Agent job concurrency limit reached")
                         else if request.actionId !in s.handlers then Rejected("Agent job action is not registered")
                         else if |s.order| == 1000 && !CanMakeRoom(s, now) then Threw("Agent job history capacity reached")
                         else Accepted(RUNNING, false))
            && (reply.Rejected? ==> t == s)
            && (reply.Accepted? ==>
                  && t.records == s.records + [Job(request, RUNNING, 0, 0, request.step, None, None, false, now)]
                  && request.jobId in t.jobs && t.jobs[request.jobId] == |s.records|
                  && (forall id | id in t.jobs && id != request.jobId :: id in s.jobs && t.jobs[id] == s.jobs[id])
                  && t.handlers == s.handlers && t.attached == s.attached && Sent(s, t, Started(|s.records|, RUNNING)))
  {
    ActiveAreUnfinished(s);
    PruneDropsOne(s, now);
    PrunedKeepsObjects(s, now);
    RoomMeansPrunable(s, now);
  }

  /** ".part.part" for any number of parts. */
  function Behind(parts: seq<string>): string { if parts == [] then "" else "." + (parts[0] + Behind(parts[1..])) }

  /** A word of letters and digits that starts with a letter. */
  predicate Word(word: string) {
    word != "" && 'a' <= word[0] <= 'z' && forall c <- word :: 'a' <= c <= 'z' || '0' <= c <= '9'
  }

  predicate Part(part: string) { part != "" && forall c <- part :: 'a' <= c <= 'z' || '0' <= c <= '9' || c == '_' || c == '-' }

  /** The word and the parts of an action id, in the form they are written. */
  ghost predicate Spelled(id: string, word: string, parts: seq<string>) {
    id == word + Behind(parts) && Word(word) && parts != [] && forall p <- parts :: Part(p)
  }

  lemma {:induction false} RunOf(part: string, rest: string, test: char -> bool)
    requires (forall c <- part :: test(c)) && (rest == "" || !test(rest[0]))
    ensures RunLength(part + rest, test) == |part|
  {
    if part == "" {
      assert part + rest == rest;
    } else {
      assert (part + rest)[1..] == part[1..] + rest;
      RunOf(part[1..], rest, test);
    }
  }

  lemma {:induction false} TailOfParts(parts: seq<string>)
    requires forall p <- parts :: Part(p)
    ensures DottedTail(Behind(parts))
  {
    if parts != [] {
      var rest := Behind(parts[1..]);
      TailOfParts(parts[1..]);
      assert Part(parts[0]);
      RunOf(parts[0], rest, TailChar);
      assert Behind(parts)[1..] == parts[0] + rest && (parts[0] + rest)[|parts[0]|..] == rest;
    }
  }

  lemma {:induction false} PartsOfTail(s: string) returns (parts: seq<string>)
    requires DottedTail(s)
    ensures s == Behind(parts) && (s != "" ==> parts != []) && forall p <- parts :: Part(p)
    decreases |s|
  {
    parts := [];
    if s != "" {
      var n := RunLength(s[1..], TailChar);
      var more := PartsOfTail(s[n + 1..]);
      parts := [s[1..n + 1]] + more;
      assert parts[1..] == more && s == "." + (s[1..n + 1] + s[n + 1..]);
    }
  }

  /** The pattern of an action id accepts exactly a word followed by one or more dotted parts. */
  lemma {:induction false} ActionIdsInWords(id: string)
    ensures ValidActionId(id) <==> exists word, parts :: Spelled(id, word, parts)
  {
    if ValidActionId(id) {
      var n := RunLength(id, HeadChar);
      var parts := PartsOfTail(id[n..]);
      assert id == id[..n] + id[n..];
      assert Spelled(id, id[..n], parts);
    }
    forall word, parts | Spelled(id, word, parts) ensures ValidActionId(id) {
      RunOf(word, Behind(parts), HeadChar);
      TailOfParts(parts);
      assert id[|word|..] == Behind(parts) && id[0] == word[0];
    }
  }

  /** What a status query is told: the job of that operation as it stands, a result only of one that succeeded;
      and what connecting does: nothing but to open or close the way to the listener. */
  lemma {:induction false} StatusDecides(s: Snapshot, jobId: string, operationId: string)
    requires Inv(s) && Indexed(s)
    ensures var reply := StatusOf(s, jobId, operationId);
            if jobId in s.jobs && s.records[s.jobs[jobId]].request.operationId == operationId then
              var job := s.records[s.jobs[jobId]];
              reply == Known(job.state, job.sequence, job.progress, job.step, job.result, job.error)
              && (job.state != SUCCEEDED ==> job.result == None)
            else reply == Missing
    ensures Step(s, Attach) == Snapshot(s.records, s.jobs, s.order, s.handlers, true, s.wire)
    ensures Step(s, Detach) == Snapshot(s.records, s.jobs, s.order, s.handlers, false, s.wire)
  {
    if jobId in s.jobs { assert JobOk(s.records[s.jobs[jobId]]); }
  }

  /** Registration adds a handler under a new well-formed id and nothing else; taking it back undoes it. */
  lemma {:induction false} RegistrationDecides(s: Snapshot, actionId: string, handler: nat)
    requires Indexed(s)
    ensures var t := Step(s, Register(actionId, handler));
            && (ValidActionId(actionId) && actionId !in s.handlers ==>
                  && t == s.(handlers := s.handlers[actionId := handler])
                  && Step(t, Unregister(actionId, handler)).handlers == s.handlers)
            && (!ValidActionId(actionId) || actionId in s.handlers ==> t == s)
            && forall other | other != handler && actionId in t.handlers && t.handlers[actionId] == handler ::
                 Step(t, Unregister(actionId, other)) == t
  {
  }

  // ------------------------------------------------------- after a job's end

  /** The last report of one job that its handler got through, if there was any. */
  function LastReport(events: seq<Event>, rec: nat): Option<(string, int)> {
    if events == [] then None
    else
      var e := events[|events| - 1];
      if e.Report? && e.rec == rec && ValidReport(e.step, e.progress) then Some((e.step, e.progress))
      else LastReport(events[..|events| - 1], rec)
  }

  lemma {:induction false} LastReportAfterFirst(events: seq<Event>, rec: nat)
    requires events != []
    ensures LastReport(events, rec)
         == if LastReport(events[1..], rec).Some? then LastReport(events[1..], rec) else LastReport(events[..1], rec)
    decreases |events|
  {
    if |events| > 1 {
      var most := events[..|events| - 1];
      LastReportAfterFirst(most, rec);
      assert most[1..] == events[1..][..|events| - 2] && most[..1] == events[..1];
    } else {
      assert events[..1] == events && events[1..] == [];
    }
  }

  /** The step and progress a finished job shows: those of the last report, however late. */
  function ShownProgress(job: Job, report: Option<(string, int)>): (string, int) {
    if report.Some? then report.value else (job.step, job.progress)
  }

  /** One event after a job's end: step and progress follow a report, and the wire only sees results. */
  ghost predicate QuietStep(s: Snapshot, t: Snapshot, rec: nat, report: Option<(string, int)>) {
    && rec < |s.records| <= |t.records|
    && (t.records[rec].step, t.records[rec].progress) == ShownProgress(s.records[rec], report)
    && s.wire <= t.wire
    && forall i | |s.wire| <= i < |t.wire| && t.wire[i].rec == rec :: t.wire[i].Result?
  }

  lemma {:induction false} FinishedReplay(s: Snapshot, rec: nat, other: nat)
    requires rec < |s.records| && other < |s.records| && Terminal(s.records[rec].state)
    ensures QuietStep(s, EmitResult(s, other), rec, None) && QuietStep(s, EmitHeartbeat(s, other), rec, None)
  {
  }

  lemma {:induction false} FinishedStart(s: Snapshot, request: Request, now: int, rec: nat)
    requires Indexed(s) && rec < |s.records| && Terminal(s.records[rec].state)
    ensures QuietStep(s, StartStep(s, request, now).0, rec, None)
  {
    if request.jobId in s.jobs {
      FinishedReplay(s, rec, s.jobs[request.jobId]);
    } else {
      PrunedKeepsObjects(s, now);
    }
  }

  lemma {:induction false} FinishedReport(s: Snapshot, rec: nat, other: nat, step: string, progress: int)
    requires rec < |s.records| && other < |s.records| && Terminal(s.records[rec].state)
    ensures QuietStep(s, ReportStep(s, other, step, progress), rec, LastReport([Report(other, step, progress)], rec))
  {
    assert LastReport([], rec) == None && [Report(other, step, progress)][..0] == [];
  }

  lemma {:induction false} FinishedStep(s: Snapshot, e: Event, rec: nat)
    requires Indexed(s) && Enabled(s, e) && rec < |s.records| && Terminal(s.records[rec].state)
    ensures QuietStep(s, Step(s, e), rec, LastReport([e], rec))
  {
    assert LastReport([], rec) == None && [e][..0] == [];
    match e {
      case Start(request, now) => FinishedStart(s, request, now, rec);
      case Report(other, step, progress) => FinishedReport(s, rec, other, step, progress);
      case Tick(other) => FinishedReplay(s, rec, other);
      case Settle(other, outcome) => assert other != rec;
      case _ =>
    }
  }

  lemma {:induction false} QuietRun(s: Snapshot, events: seq<Event>, rec: nat)
    requires Inv(s) && Possible(s, events) && rec < |s.records| && Terminal(s.records[rec].state)
    ensures QuietStep(s, Run(s, events), rec, LastReport(events, rec))
    decreases |events|
  {
    if events != [] {
      var t := Step(s, events[0]);
      FinishedStep(s, events[0], rec);
      StepKeepsInv(s, events[0]);
      StepFollows(s, events[0]);
      assert Evolves(s.records[rec], t.records[rec]);
      QuietRun(t, events[1..], rec);
      LastReportAfterFirst(events, rec);
      assert events[..1] == [events[0]];
    }
  }

  /** A finished job keeps its state, result and error for every status query and sends nothing but its
      result again. Yet the reply still changes: its step and progress are those of the last report that
      came after the end, so they differ from before exactly when such a report said something else. */
  lemma {:induction false} LateReportsChangeStatusOnly(s: Snapshot, events: seq<Event>, jobId: string, operationId: string)
    requires Inv(s) && Indexed(s) && Possible(s, events)
    requires StatusOf(s, jobId, operationId).Known? && Terminal(StatusOf(s, jobId, operationId).state)
    requires jobId in Run(s, events).jobs && Run(s, events).jobs[jobId] == s.jobs[jobId]
    ensures Indexed(Run(s, events))
    ensures var rec, t := s.jobs[jobId], Run(s, events);
            var before, after, report := StatusOf(s, jobId, operationId), StatusOf(t, jobId, operationId), LastReport(events, rec);
            && after.Known? && after.state == before.state && after.result == before.result && after.error == before.error
            && ((after.step, after.progress) != (before.step, before.progress)
                <==> report.Some? && report.value != (before.step, before.progress))
            && (report.Some? ==> (after.step, after.progress) == report.value)
            && (forall i | |s.wire| <= i < |t.wire| && t.wire[i].rec == rec ::
                  t.wire[i].Result? && SameOutcome(t.wire[i], ResultOf(rec, s.records[rec])))
  {
    var rec, t := s.jobs[jobId], Run(s, events);
    RunKeepsInv(s, events);
    InvIndexed(t);
    QuietRun(s, events, rec);
    assert Evolves(s.records[rec], t.records[rec]);
    forall i | |s.wire| <= i < |t.wire| && t.wire[i].rec == rec
      ensures SameOutcome(t.wire[i], ResultOf(rec, s.records[rec]))
    {
      assert EmissionOk(t.records, t.wire[i]);
    }
  }

  // -------------------------------------------------------------- the runtime

  class AgentJobRuntime {
    var records: seq<Job>
    var jobs: map<string, nat>
    var order: seq<string>
    var handlers: map<string, nat>
    var attached: bool
    var wire: seq<Emission>

    ghost function Snap(): Snapshot
      reads this
    {
      Snapshot(records, jobs, order, handlers, attached, wire)
    }

    ghost predicate Valid()
      reads this
    {
      Inv(Snap())
    }

    constructor ()
      ensures Valid() && Snap() == EMPTY
    {
      records, jobs, order, handlers, attached, wire := [], map[], [], map[], false, [];
      new;
      EmptyIsLawful();
    }

    /** Throws when the action id is malformed or already has a handler. */
    method RegisterHandler(actionId: string, handler: nat) returns (ok: bool)
      requires Valid()
      modifies this
      ensures Valid() && Snap() == Step(old(Snap()), Register(actionId, handler))
      ensures ok <==> ValidActionId(actionId) && actionId !in old(handlers)
    {
      StepKeepsInv(Snap(), Register(actionId, handler));
      ok := ValidActionId(actionId) && actionId !in handlers;
      if ok { handlers := handlers[actionId := handler]; }
    }

    /** The closure registerHandler returns. */
    method UnregisterHandler(actionId: string, handler: nat)
      requires Valid()
      modifies this
      ensures Valid() && Snap() == Step(old(Snap()), Unregister(actionId, handler))
    {
      StepKeepsInv(Snap(), Unregister(actionId, handler));
      if actionId in handlers && handlers[actionId] == handler { handlers := handlers - {actionId}; }
    }

    method HandleStatus(jobId: string, operationId: string) returns (reply: StatusReply)
      requires Indexed(Snap())
      ensures reply == StatusOf(Snap(), jobId, operationId)
    {
      if jobId !in jobs { return Missing; }
      var job := records[jobs[jobId]];
      if job.request.operationId != operationId { return Missing; }
      reply := Known(job.state, job.sequence, job.progress, job.step, if job.state == SUCCEEDED then job.result else None,
                     job.error);
    }

    method AttachSocket()
      requires Valid()
      modifies this
      ensures Valid() && Snap() == Step(old(Snap()), Attach)
    {
      StepKeepsInv(Snap(), Attach);
      attached := true;
    }

    method DetachSocket()
      requires Valid()
      modifies this
      ensures Valid() && Snap() == Step(old(Snap()), Detach)
    {
      StepKeepsInv(Snap(), Detach);
      attached := false;
    }

    method CountActive() returns (count: nat)
      requires Indexed(Snap())
      ensures count == |Active(Snap())|
    {
      count := 0;
      ghost var s := Snap();
      for i := 0 to |order|
        invariant count == |Filter(order[..i], ActiveTest(s))|
      {
        assert order[..i + 1] == order[..i] + [order[i]];
        FilterAppend(order[..i], [order[i]], ActiveTest(s));
        if !Terminal(records[jobs[order[i]]].state) {
          count := count + 1;
        }
      }
      assert order[..|order|] == order;
    }

    method DropIfOld(id: string, cutoff: int)
      modifies this
      ensures Snap() == if Prunable(old(Snap()), id, cutoff) then WithoutId(old(Snap()), id) else old(Snap())
    {
      if id in jobs && jobs[id] < |records| && Terminal(records[jobs[id]].state) && records[jobs[id]].createdAt < cutoff {
        jobs := jobs - {id};
        order := Filter(order, other => other != id);
      }
    }

    method PruneJobs(now: int) returns (ok: bool)
      requires Indexed(Snap())
      modifies this
      ensures Snap() == Pruned(old(Snap()), now)
      ensures ok == (|order| < MAX_RECORDS)
    {
      if |order| < MAX_RECORDS {
        return true;
      }
      var cutoff := now - RETENTION_MS;
      var ids := order;
      var i := 0;
      while i < |ids|
        invariant 0 <= i <= |ids|
        invariant i < |ids| ==> PruneFrom(Snap(), ids[i..], cutoff) == PruneFrom(old(Snap()), ids, cutoff)
        invariant i == |ids| ==> Snap() == PruneFrom(old(Snap()), ids, cutoff)
      {
        DropIfOld(ids[i], cutoff);
        assert ids[i..][0] == ids[i] && ids[i..][1..] == ids[i + 1..];
        i := i + 1;
        if |order| < MAX_RECORDS {
          return true;
        }
      }
      ok := |order| < MAX_RECORDS;
    }

    method SendResult(rec: nat)
      requires rec < |records|
      modifies this
      ensures Snap() == EmitResult(old(Snap()), rec)
    {
      var job := records[rec];
      job := job.(sequence := job.sequence + 1);
      records := records[rec := job];
      if attached {
        wire := wire + [Result(rec, job.sequence, job.state == SUCCEEDED, job.state == CANCELLED,
                               if job.state == SUCCEEDED then job.result else None, job.error)];
      }
    }

    /** The heartbeat interval, and the tail of context.heartbeat. */
    method SendHeartbeat(rec: nat)
      requires rec < |records|
      modifies this
      ensures Snap() == EmitHeartbeat(old(Snap()), rec)
    {
      if Terminal(records[rec].state) {
        return;
      }
      var job := records[rec];
      job := job.(sequence := job.sequence + 1);
      records := records[rec := job];
      if attached {
        wire := wire + [Heartbeat(rec, job.sequence, job.progress, job.step)];
      }
    }

    method StartKnown(request: Request, ghost now: int) returns (reply: StartReply)
      requires Indexed(Snap()) && request.jobId in jobs
      modifies this
      ensures (Snap(), reply) == StartStep(old(Snap()), request, now)
    {
      var rec := jobs[request.jobId];
      var job := records[rec];
      if job.request.operationId != request.operationId || job.request.requestHash != request.requestHash
         || job.request.actionId != request.actionId || job.request.step != request.step {
        return Rejected("Agent job idempotency conflict");
      }
      if Terminal(job.state) {
        SendResult(rec);
      }
      reply := Accepted(job.state, true);
    }

    method StartFresh(request: Request, now: int) returns (reply: StartReply)
      requires Indexed(Snap()) && request.jobId !in jobs
      modifies this
      ensures (Snap(), reply) == StartStep(old(Snap()), request, now)
    {
      if request.deadlineAt <= now {
        return Rejected("Agent job deadline elapsed");
      }
      var activeCount := CountActive();
      if activeCount >= MAX_ACTIVE_JOBS {
        return Rejected("Agent job concurrency limit reached");
      }
      if request.actionId !in handlers {
        return Rejected("Agent job action is not registered");
      }
      var room := PruneJobs(now);
      if !room {
        return Threw("Agent job history capacity reached");
      }
      var rec := |records|;
      records := records + [Job(request, RUNNING, 0, 0, request.step, None, None, false, now)];
      jobs := jobs[request.jobId := rec];
      order := order + [request.jobId];
      if attached {
        wire := wire + [Started(rec, RUNNING)];
      }
      reply := Accepted(RUNNING, false);
    }

    method HandleStart(request: Request, now: int) returns (reply: StartReply)
      requires Valid()
      modifies this
      ensures Valid()
      ensures (Snap(), reply) == StartStep(old(Snap()), request, now)
    {
      StepKeepsInv(Snap(), Start(request, now));
      InvIndexed(Snap());
      if request.jobId in jobs {
        reply := StartKnown(request, now);
      } else {
        reply := StartFresh(request, now);
      }
    }

    method HandleCancel(jobId: string, operationId: string) returns (reply: CancelReply)
      requires Valid()
      modifies this
      ensures Valid()
      ensures (Snap(), reply) == CancelStep(old(Snap()), jobId, operationId)
    {
      StepKeepsInv(Snap(), Cancel(jobId, operationId));
      if jobId !in jobs || records[jobs[jobId]].request.operationId != operationId {
        return NotFound;
      }
      var rec := jobs[jobId];
      var job := records[rec];
      if Terminal(job.state) {
        return AlreadyTerminal(job.state);
      }
      if !job.request.cancelSafe {
        return NotCancellable(job.state);
      }
      records := records[rec := job.(cancellationRequested := true, state := CANCEL_REQUESTED)];
      reply := Requested;
    }

    method DeadlineElapsed(rec: nat)
      requires Valid() && rec < |records|
      modifies this
      ensures Valid() && Snap() == Step(old(Snap()), Deadline(rec))
    {
      StepKeepsInv(Snap(), Deadline(rec));
      var job := records[rec];
      if !job.request.cancelSafe || Terminal(job.state) {
        return;
      }
      records := records[rec := job.(cancellationRequested := true, state := CANCEL_REQUESTED)];
    }

    /** Throws into the handler when the step or the progress is invalid. */
    method ReportProgress(rec: nat, step: string, progress: int) returns (ok: bool)
      requires Valid() && rec < |records|
      modifies this
      ensures ok <==> ValidReport(step, progress)
      ensures Valid() && Snap() == Step(old(Snap()), Report(rec, step, progress))
    {
      StepKeepsInv(Snap(), Report(rec, step, progress));
      ok := ValidReport(step, progress);
      if !ok { return; }
      records := records[rec := records[rec].(step := step, progress := progress)];
      SendHeartbeat(rec);
    }

    method Conclude(rec: nat, outcome: Settlement)
      requires rec < |records|
      modifies this
      ensures Snap() == SettleStep(old(Snap()), rec, outcome)
    {
      var job := records[rec];
      if job.cancellationRequested {
        job := job.(state := CANCELLED, error := Some("Agent job cancelled"));
      } else {
        match outcome
        case RejectedWith(message) =>
          job := job.(state := FAILED, error := Some(message));
        case Fulfilled(value, forbidden, bytes) =>
          if forbidden {
            job := job.(state := FAILED, error := Some("Agent job result contains forbidden field"));
          } else if bytes == None {
            job := job.(state := FAILED, error := Some("Agent job result is not JSON-serializable"));
          } else if bytes.value > MAX_RESULT_BYTES {
            job := job.(state := FAILED, error := Some("Agent job result exceeds 1 MiB"));
          } else {
            job := job.(state := SUCCEEDED, progress := 100, result := Some(value));
          }
      }
      assert job == Settled(records[rec], outcome);
      records := records[rec := job];
      SendResult(rec);
    }

    /** The rest of `execute` after the handler's promise settles. */
    method Finish(rec: nat, outcome: Settlement)
      requires Valid() && rec < |records| && !Terminal(records[rec].state)
      modifies this
      ensures Valid() && Snap() == Step(old(Snap()), Settle(rec, outcome))
    {
      StepKeepsInv(Snap(), Settle(rec, outcome));
      Conclude(rec, outcome);
    }
  }
}
