/** The agent's outgoing events while the panel is away: a bounded queue with expiry
    (agent/src/agent.service.ts:154-161, 276-286, 3819-3863). */
module EventQueue {
  import opened Common

  /** The n-th submitted event is number n; only its routing name matters besides. */
  datatype Event = Event(number: int, name: string)
  datatype Queued = Queued(event: Event, queuedAt: int)

  /** These completions have their own durable delivery. */
  predicate IsBackupCompletion(name: string) {
    name == "backup:complete" || name == "server-path:complete" || name == "panel-data:complete"
  }

  /** Everything that has happened to the events submitted so far. */
  datatype State = State(connected: bool, pending: seq<Queued>, next: int, sent: seq<int>,
                         handed: set<int>, overflowed: set<int>, expired: set<int>)

  datatype Action =
    | Submit(name: string, now: int)
    | Connect(now: int, dropsAfter: Option<nat>)
    | Disconnect

  datatype Limits = Limits(ttl: int, cap: nat)

  function Fresh(now: int, ttl: int): Queued -> bool { (q: Queued) => now - q.queuedAt <= ttl }
  function Stale(now: int, ttl: int): Queued -> bool { (q: Queued) => now - q.queuedAt > ttl }
  function NumberOf(q: Queued): int { q.event.number }

  // --------------------------------------------------------------------- the step

  function Submitted(l: Limits, s: State, name: string, now: int): State {
    var number := s.next;
    var s' := s.(next := s.next + 1);
    if IsBackupCompletion(name) then s'.(handed := s.handed + {number})
    else if s.connected then s'.(sent := s.sent + [number])
    else
      var kept := if |s.pending| >= l.cap && s.pending != [] then s.pending[1..] else s.pending;
      var lost := if |s.pending| >= l.cap && s.pending != [] then {NumberOf(s.pending[0])} else {};
      s'.(pending := kept + [Queued(Event(number, name), now)], overflowed := s.overflowed + lost)
  }

  /** flushPendingEvents after a connect: the connection may drop after some sends and then stays down. */
  function Connected(l: Limits, s: State, now: int, dropsAfter: Option<nat>): State {
    var live := Filter(s.pending, Fresh(now, l.ttl));
    var count := SendCount(live, dropsAfter);
    s.(connected := dropsAfter == None, pending := live[count..], sent := s.sent + Map(live[..count], NumberOf),
       expired := s.expired + Elements(Map(Filter(s.pending, Stale(now, l.ttl)), NumberOf)))
  }

  function Step(l: Limits, s: State, a: Action): State {
    match a
    case Submit(name, now) => Submitted(l, s, name, now)
    case Connect(now, dropsAfter) => Connected(l, s, now, dropsAfter)
    case Disconnect => s.(connected := false)
  }

  const INITIAL := State(false, [], 0, [], {}, {}, {})

  function Run(l: Limits, actions: seq<Action>): State {
    if actions == [] then INITIAL else Step(l, Run(l, actions[..|actions| - 1]), actions[|actions| - 1])
  }

  function EventOf(q: Queued): Event { q.event }
  function EventNumber(e: Event): int { e.number }

  /** How many of the live events a flush sends before the connection drops. */
  function SendCount(live: seq<Queued>, dropsAfter: Option<nat>): (count: nat)
    ensures count <= |live|
  {
    if dropsAfter.Some? && dropsAfter.value < |live| then dropsAfter.value else |live|
  }

  /** The flush loop: send while the socket is up, queue again what is left once it is down. */
  method SendAll(live: seq<Queued>, dropsAfter: Option<nat>) returns (emitted: seq<Event>, requeued: seq<Queued>)
    ensures emitted == Map(live[..SendCount(live, dropsAfter)], EventOf)
    ensures requeued == live[SendCount(live, dropsAfter)..]
  {
    emitted, requeued := [], [];
    var up := true;
    var count := SendCount(live, dropsAfter);
    for i := 0 to |live|
      invariant up ==> i <= count && emitted == Map(live[..i], EventOf) && requeued == []
      invariant !up ==> count < i && emitted == Map(live[..count], EventOf) && requeued == live[count..i]
    {
      NextPrefix(live, i);
      MapOne(live[..i], live[i], EventOf);
      if dropsAfter == Some(|emitted|) { up := false; }
      if up {
        emitted := emitted + [live[i].event];
      } else {
        requeued := requeued + [live[i]];
      }
    }
  }

  // -------------------------------------------------------------------- the class

  class OutgoingEvents {
    const limits: Limits
    var connected: bool
    var pending: seq<Queued>
    var submitted: int
    ghost var sent: seq<int>
    ghost var handed: set<int>
    ghost var overflowed: set<int>
    ghost var expired: set<int>

    ghost function Snapshot(): State
      reads this
    {
      State(connected, pending, submitted, sent, handed, overflowed, expired)
    }

    constructor (limits: Limits)
      ensures Snapshot() == INITIAL && this.limits == limits
    {
      this.limits := limits;
      connected, pending, submitted := false, [], 0;
      sent, handed, overflowed, expired := [], {}, {}, {};
    }

    /** emitOrQueue; `emitted` is the event handed to the socket, if it was. */
    method EmitOrQueue(name: string, now: int) returns (emitted: Option<Event>)
      modifies this
      ensures Snapshot() == Step(limits, old(Snapshot()), Submit(name, now))
      ensures emitted == if old(connected) && !IsBackupCompletion(name) then Some(Event(old(submitted), name)) else None
    {
      var event := Event(submitted, name);
      submitted := submitted + 1;
      emitted := None;
      if IsBackupCompletion(name) {
        handed := handed + {event.number};
        return;
      }
      if connected {
        sent := sent + [event.number];
        return Some(event);
      }
      if |pending| >= limits.cap && pending != [] {
        overflowed := overflowed + {NumberOf(pending[0])};
        pending := pending[1..];
      }
      pending := pending + [Queued(event, now)];
    }

    /** The connect handler with its flush; the connection drops after `dropsAfter` sends, if at all. */
    method OnConnect(now: int, dropsAfter: Option<nat>) returns (emitted: seq<Event>)
      modifies this
      ensures Snapshot() == Step(limits, old(Snapshot()), Connect(now, dropsAfter))
      ensures var live := Filter(old(pending), Fresh(now, limits.ttl));
              emitted == Map(live[..SendCount(live, dropsAfter)], EventOf)
    {
      var live := Filter(pending, Fresh(now, limits.ttl));
      expired := expired + Elements(Map(Filter(pending, Stale(now, limits.ttl)), NumberOf));
      emitted, pending := SendAll(live, dropsAfter);
      MapMap(live[..SendCount(live, dropsAfter)], EventOf, EventNumber, NumberOf);
      sent := sent + Map(emitted, EventNumber);
      connected := dropsAfter == None;
    }

    method OnDisconnect()
      modifies this
      ensures Snapshot() == Step(limits, old(Snapshot()), Disconnect)
    {
      connected := false;
    }
  }

  // -------------------------------------------------------------------- the invariant

  ghost predicate Ascending(s: seq<int>) { forall i, j | 0 <= i < j < |s| :: s[i] < s[j] }

  function Numbers(s: State): seq<int> { Map(s.pending, NumberOf) }

  /** Sent and queued events together are in submission order, sent ones first. */
  ghost predicate InOrder(s: State) {
    Ascending(s.sent + Numbers(s)) && forall n <- s.sent + Numbers(s) :: n < s.next
  }

  /** Where event n is. */
  ghost predicate Settled(s: State, n: int) {
    n in s.handed || n in s.sent || n in Numbers(s) || n in s.overflowed || n in s.expired
  }

  /** A submitted event is in exactly one place, and no other number is anywhere. */
  ghost predicate AccountedFor(s: State, n: int) {
    && (0 <= n < s.next <==> Settled(s, n))
    && (n in s.handed ==> n !in s.sent && n !in Numbers(s) && n !in s.overflowed && n !in s.expired)
    && (n in s.overflowed ==> n !in s.sent && n !in Numbers(s) && n !in s.expired)
    && (n in s.expired ==> n !in s.sent && n !in Numbers(s))
  }

  ghost predicate Accounted(s: State) { forall n: int :: AccountedFor(s, n) }

  ghost predicate Inv(l: Limits, s: State) {
    s.next >= 0 && InOrder(s) && Accounted(s) && |s.pending| <= l.cap && (s.connected ==> s.pending == [])
  }

  lemma {:induction false} FilterAscending(q: seq<Queued>, keep: Queued -> bool)
    requires Ascending(Map(q, NumberOf))
    ensures Ascending(Map(Filter(q, keep), NumberOf))
  {
    if q != [] {
      var most, last := q[..|q| - 1], q[|q| - 1];
      assert q == most + [last];
      MapOne(most, last, NumberOf);
      AscendingParts(Map(most, NumberOf), [last.event.number]);
      FilterAscending(most, keep);
      FilterOne(most, last, keep);
      if keep(last) {
        KeptBelow(most, keep, last);
        MapOne(Filter(most, keep), last, NumberOf);
        AscendingJoin(Map(Filter(most, keep), NumberOf), [last.event.number]);
      } else {
        NoMore(Filter(most, keep));
      }
    }
  }

  lemma {:induction false} KeptBelow(most: seq<Queued>, keep: Queued -> bool, last: Queued)
    requires forall m <- Map(most, NumberOf) :: m < last.event.number
    ensures forall n <- Map(Filter(most, keep), NumberOf) :: n < last.event.number
  {
    FilterMembers(most, keep);
    forall n <- Map(Filter(most, keep), NumberOf) ensures n < last.event.number {
      var x := Preimage(Filter(most, keep), NumberOf, n);
      ImageOf(most, NumberOf, x);
    }
  }

  lemma {:induction false} AscendingParts(a: seq<int>, b: seq<int>)
    requires Ascending(a + b)
    ensures Ascending(a) && Ascending(b) && forall m, n | m in a && n in b :: m < n
  {
    var all := a + b;
    forall i, j | 0 <= i < j < |a| ensures a[i] < a[j] { assert all[i] < all[j]; }
    forall i, j | 0 <= i < j < |b| ensures b[i] < b[j] { assert all[|a| + i] < all[|a| + j]; }
    forall m, n | m in a && n in b ensures m < n {
      var i :| 0 <= i < |a| && a[i] == m;
      var j :| 0 <= j < |b| && b[j] == n;
      assert all[i] < all[|a| + j];
    }
  }

  lemma {:induction false} AscendingJoin(a: seq<int>, b: seq<int>)
    requires Ascending(a) && Ascending(b) && forall m, n | m in a && n in b :: m < n
    ensures Ascending(a + b)
  {
    forall i, j | 0 <= i < j < |a + b| ensures (a + b)[i] < (a + b)[j] {
      if i < |a| <= j {
        assert a[i] in a && b[j - |a|] in b;
      }
    }
  }

  /** Where a queued event goes in a flush. */
  lemma {:induction false} FlushSplits(q: seq<Queued>, now: int, ttl: int, n: int)
    ensures n in Map(q, NumberOf) <==>
              n in Map(Filter(q, Fresh(now, ttl)), NumberOf) || n in Map(Filter(q, Stale(now, ttl)), NumberOf)
  {
    FilterMembers(q, Fresh(now, ttl));
    FilterMembers(q, Stale(now, ttl));
    if n in Map(q, NumberOf) {
      var x := Preimage(q, NumberOf, n);
      if Fresh(now, ttl)(x) {
        ImageOf(Filter(q, Fresh(now, ttl)), NumberOf, x);
      } else {
        ImageOf(Filter(q, Stale(now, ttl)), NumberOf, x);
      }
    }
    if n in Map(Filter(q, Fresh(now, ttl)), NumberOf) {
      var x := Preimage(Filter(q, Fresh(now, ttl)), NumberOf, n);
      ImageOf(q, NumberOf, x);
    }
    if n in Map(Filter(q, Stale(now, ttl)), NumberOf) {
      var x := Preimage(Filter(q, Stale(now, ttl)), NumberOf, n);
      ImageOf(q, NumberOf, x);
    }
  }

  lemma {:induction false} SameNumber(q: seq<Queued>, x: Queued, y: Queued)
    requires Ascending(Map(q, NumberOf)) && x in q && y in q && NumberOf(x) == NumberOf(y)
    ensures x == y
  {
    var i :| 0 <= i < |q| && q[i] == x;
    var j :| 0 <= j < |q| && q[j] == y;
    var numbers := Map(q, NumberOf);
    assert numbers[i] == NumberOf(x) && numbers[j] == NumberOf(y);
  }

  lemma {:induction false} FreshIsNotStale(q: seq<Queued>, now: int, ttl: int, n: int)
    requires Ascending(Map(q, NumberOf)) && n in Map(Filter(q, Fresh(now, ttl)), NumberOf)
    ensures n !in Map(Filter(q, Stale(now, ttl)), NumberOf)
  {
    FilterMembers(q, Fresh(now, ttl));
    FilterMembers(q, Stale(now, ttl));
    var x := Preimage(Filter(q, Fresh(now, ttl)), NumberOf, n);
    if n in Map(Filter(q, Stale(now, ttl)), NumberOf) {
      var y := Preimage(Filter(q, Stale(now, ttl)), NumberOf, n);
      SameNumber(q, x, y);
    }
  }

  /** A flush keeps the order. */
  lemma {:induction false} FlushKeepsOrder(l: Limits, s: State, now: int, dropsAfter: Option<nat>)
    requires InOrder(s)
    ensures InOrder(Connected(l, s, now, dropsAfter))
    ensures |Connected(l, s, now, dropsAfter).pending| <= |s.pending|
  {
    var live := Filter(s.pending, Fresh(now, l.ttl));
    var count := SendCount(live, dropsAfter);
    AscendingParts(s.sent, Numbers(s));
    FilterAscending(s.pending, Fresh(now, l.ttl));
    FilterMembers(s.pending, Fresh(now, l.ttl));
    forall n <- Map(live, NumberOf) ensures n in Numbers(s) { FlushSplits(s.pending, now, l.ttl, n); }
    AscendingJoin(s.sent, Map(live, NumberOf));
    SplitNumbers(live, count);
    Associate(s.sent, Map(live[..count], NumberOf), Map(live[count..], NumberOf));
    forall n <- s.sent + Map(live, NumberOf) ensures n < s.next {
      assert n in s.sent + Numbers(s);
    }
  }

  lemma {:induction false} SplitNumbers(live: seq<Queued>, count: nat)
    requires count <= |live|
    ensures Map(live, NumberOf) == Map(live[..count], NumberOf) + Map(live[count..], NumberOf)
  {
  }

  lemma {:induction false} Associate<T>(a: seq<T>, b: seq<T>, c: seq<T>)
    ensures a + (b + c) == a + b + c
  {
  }

  /** What a flush does with the queued numbers: sent, queued again or expired, and never two of them. */
  lemma {:induction false} FlushPartitions(l: Limits, s: State, now: int, dropsAfter: Option<nat>, n: int)
    requires Ascending(Numbers(s))
    ensures var live, stale := Filter(s.pending, Fresh(now, l.ttl)), Filter(s.pending, Stale(now, l.ttl));
            var count := SendCount(live, dropsAfter);
            var sent, kept, lost := n in Map(live[..count], NumberOf), n in Map(live[count..], NumberOf), n in Map(stale, NumberOf);
            && (n in Numbers(s) <==> sent || kept || lost)
            && !(sent && kept) && !(sent && lost) && !(kept && lost)
  {
    var live := Filter(s.pending, Fresh(now, l.ttl));
    var count := SendCount(live, dropsAfter);
    FlushSplits(s.pending, now, l.ttl, n);
    if n in Map(live, NumberOf) { FreshIsNotStale(s.pending, now, l.ttl, n); }
    FilterAscending(s.pending, Fresh(now, l.ttl));
    SplitNumbers(live, count);
    AscendingApart(Map(live[..count], NumberOf), Map(live[count..], NumberOf), n);
  }

  lemma {:induction false} AscendingApart(a: seq<int>, b: seq<int>, n: int)
    requires Ascending(a + b)
    ensures !(n in a && n in b)
  {
    AscendingParts(a, b);
  }

  lemma {:induction false} SentIsNotQueued(s: State, n: int)
    requires InOrder(s) && n in s.sent
    ensures n !in Numbers(s)
  {
    AscendingApart(s.sent, Numbers(s), n);
  }

  /** A flush accounts for every event it takes out of the queue. */
  lemma {:induction false} FlushAccounts(l: Limits, s: State, now: int, dropsAfter: Option<nat>, n: int)
    requires InOrder(s) && AccountedFor(s, n)
    ensures AccountedFor(Connected(l, s, now, dropsAfter), n)
  {
    AscendingParts(s.sent, Numbers(s));
    if n in s.sent { SentIsNotQueued(s, n); }
    FlushPartitions(l, s, now, dropsAfter, n);
  }

  lemma {:induction false} SubmitKeeps(l: Limits, s: State, name: string, now: int)
    requires l.cap > 0 && Inv(l, s)
    ensures Inv(l, Submitted(l, s, name, now))
  {
    var s' := Submitted(l, s, name, now);
    AscendingParts(s.sent, Numbers(s));
    if IsBackupCompletion(name) {
    } else if s.connected {
      NoMore(s.sent);
      NoMore(s'.sent);
      AscendingJoin(s.sent, [s.next]);
    } else {
      QueueKeeps(l, s, name, now);
    }
    forall n: int ensures AccountedFor(s', n) {
      assert AccountedFor(s, n);
      if !IsBackupCompletion(name) && !s.connected { QueueMoves(l, s, name, now, n); }
    }
  }

  /** Queueing drops at most the oldest event and appends the new one. */
  lemma {:induction false} QueueKeeps(l: Limits, s: State, name: string, now: int)
    requires l.cap > 0 && InOrder(s) && s.next >= 0 && !s.connected && !IsBackupCompletion(name)
    ensures InOrder(Submitted(l, s, name, now))
  {
    var kept := if |s.pending| >= l.cap && s.pending != [] then s.pending[1..] else s.pending;
    var dropped := s.pending[..|s.pending| - |kept|];
    assert s.pending == dropped + kept;
    WithoutOldest(s.sent, dropped, kept);
    BelowNext(s, kept);
    AscendingJoin(s.sent + Map(kept, NumberOf), [s.next]);
    MapOne(kept, Queued(Event(s.next, name), now), NumberOf);
    Associate(s.sent, Map(kept, NumberOf), [s.next]);
  }

  lemma {:induction false} WithoutOldest(sent: seq<int>, dropped: seq<Queued>, kept: seq<Queued>)
    requires Ascending(sent + Map(dropped + kept, NumberOf))
    ensures Ascending(sent + Map(kept, NumberOf)) && forall n <- Map(kept, NumberOf) :: n in Map(dropped + kept, NumberOf)
  {
    MapAppend(dropped, kept, NumberOf);
    AscendingParts(sent, Map(dropped + kept, NumberOf));
    AscendingParts(Map(dropped, NumberOf), Map(kept, NumberOf));
    forall n <- Map(kept, NumberOf) ensures n in Map(dropped + kept, NumberOf) {
      assert n in Map(dropped, NumberOf) + Map(kept, NumberOf);
    }
    AscendingJoin(sent, Map(kept, NumberOf));
  }

  lemma {:induction false} BelowNext(s: State, kept: seq<Queued>)
    requires InOrder(s) && forall n <- Map(kept, NumberOf) :: n in Numbers(s)
    ensures forall n <- s.sent + Map(kept, NumberOf) :: n < s.next
  {
    forall n <- s.sent + Map(kept, NumberOf) ensures n < s.next {
      assert n in s.sent + Numbers(s);
    }
  }

  lemma {:induction false} QueueMoves(l: Limits, s: State, name: string, now: int, n: int)
    requires l.cap > 0 && InOrder(s) && !s.connected && !IsBackupCompletion(name)
    ensures var s' := Submitted(l, s, name, now);
            && (n in Numbers(s') ==> n in Numbers(s) || n == s.next) && (n == s.next ==> n in Numbers(s'))
            && (n in Numbers(s) ==> n in Numbers(s') || n in s'.overflowed)
            && (n in s'.overflowed && n !in s.overflowed ==> n in Numbers(s) && n !in Numbers(s'))
  {
    var full := |s.pending| >= l.cap && s.pending != [];
    var kept := if full then s.pending[1..] else s.pending;
    AscendingParts(s.sent, Numbers(s));
    MapOne(kept, Queued(Event(s.next, name), now), NumberOf);
    if full {
      assert s.pending == [s.pending[0]] + kept;
      assert Numbers(s) == [NumberOf(s.pending[0])] + Map(kept, NumberOf);
      AscendingParts([NumberOf(s.pending[0])], Map(kept, NumberOf));
      assert NumberOf(s.pending[0]) in s.sent + Numbers(s);
    }
  }

  lemma {:induction false} StepKeepsInv(l: Limits, s: State, a: Action)
    requires l.cap > 0 && Inv(l, s)
    ensures Inv(l, Step(l, s, a))
  {
    match a {
      case Submit(name, now) => SubmitKeeps(l, s, name, now);
      case Connect(now, dropsAfter) =>
        FlushKeepsOrder(l, s, now, dropsAfter);
        forall n: int ensures AccountedFor(Connected(l, s, now, dropsAfter), n) {
          assert AccountedFor(s, n);
          FlushAccounts(l, s, now, dropsAfter, n);
        }
      case Disconnect =>
        forall n: int ensures AccountedFor(Step(l, s, a), n) { assert AccountedFor(s, n); }
    }
  }

  /** In every run: sent events are an in-order, duplicate-free subsequence of those submitted, the queue
      respects its cap, and every event is sent, queued, handed over, or lost to the cap or to age. */
  lemma {:induction false} RunKeepsInv(l: Limits, actions: seq<Action>)
    requires l.cap > 0
    ensures Inv(l, Run(l, actions))
    decreases |actions|
  {
    if actions != [] {
      var most := actions[..|actions| - 1];
      RunKeepsInv(l, most);
      StepKeepsInv(l, Run(l, most), actions[|actions| - 1]);
    }
  }

  /** Nothing past its lifetime is sent, and only what is past its lifetime expires. */
  lemma {:induction false} FlushRespectsAge(l: Limits, s: State, now: int, dropsAfter: Option<nat>, q: Queued)
    requires Inv(l, s) && q in s.pending
    ensures NumberOf(q) in Connected(l, s, now, dropsAfter).expired <==> now - q.queuedAt > l.ttl
    ensures NumberOf(q) in Connected(l, s, now, dropsAfter).sent ==> now - q.queuedAt <= l.ttl
    ensures dropsAfter == None ==> (NumberOf(q) in Connected(l, s, now, dropsAfter).sent <==> now - q.queuedAt <= l.ttl)
  {
    var n := NumberOf(q);
    var live, stale := Filter(s.pending, Fresh(now, l.ttl)), Filter(s.pending, Stale(now, l.ttl));
    ImageOf(s.pending, NumberOf, q);
    assert AccountedFor(s, n);
    AscendingParts(s.sent, Numbers(s));
    if n in s.sent { SentIsNotQueued(s, n); }
    FilterMembers(s.pending, Fresh(now, l.ttl));
    FilterMembers(s.pending, Stale(now, l.ttl));
    FlushPartitions(l, s, now, dropsAfter, n);
    if now - q.queuedAt <= l.ttl {
      ImageOf(live, NumberOf, q);
      FreshIsNotStale(s.pending, now, l.ttl, n);
      WholePrefix(live);
    } else {
      ImageOf(stale, NumberOf, q);
    }
  }

  /** The three completions that a backup reports; they are stored before they are announced. */
  predicate DeliversItself(name: string) { name in ["backup:complete", "server-path:complete", "panel-data:complete"] }

  /** What becomes of a submission. Sent at once while connected; behind the queue while not, and only a full
      queue gives up its oldest event for it; a backup completion goes its own way. */
  lemma {:induction false} SubmissionDecides(l: Limits, s: State, name: string, now: int)
    requires l.cap > 0 && Inv(l, s)
    ensures var t := Step(l, s, Submit(name, now));
            && t.next == s.next + 1 && t.connected == s.connected && t.expired == s.expired
            && (DeliversItself(name) ==>
                  t.handed == s.handed + {s.next} && t.sent == s.sent && t.pending == s.pending && t.overflowed == s.overflowed)
            && (!DeliversItself(name) && s.connected ==>
                  t.sent == s.sent + [s.next] && t.pending == s.pending && t.overflowed == s.overflowed && t.handed == s.handed)
            && (!DeliversItself(name) && !s.connected ==>
                  var event := Queued(Event(s.next, name), now);
                  && t.sent == s.sent && t.handed == s.handed
                  && (|s.pending| < l.cap ==> t.pending == s.pending + [event] && t.overflowed == s.overflowed)
                  && (|s.pending| == l.cap ==>
                        t.pending == s.pending[1..] + [event] && t.overflowed == s.overflowed + {s.pending[0].event.number}))
  {
  }

  /** Only a submission to a full queue while disconnected ever drops an event for want of room. */
  lemma {:induction false} OverflowHasACause(l: Limits, s: State, a: Action, n: int)
    requires l.cap > 0 && Inv(l, s)
    requires n in Step(l, s, a).overflowed && n !in s.overflowed
    ensures a.Submit? && !DeliversItself(a.name) && !s.connected && |s.pending| == l.cap && n == s.pending[0].event.number
  {
  }

  /** A connect moves the events that are not past their lifetime, in order: all of them to the socket, or
      those before the drop, the rest waiting with their old time of queueing. A disconnect moves nothing. */
  lemma {:induction false} ConnectDecides(l: Limits, s: State, now: int, dropsAfter: Option<nat>)
    requires l.cap > 0 && Inv(l, s)
    ensures var t := Step(l, s, Connect(now, dropsAfter));
            var live := Filter(s.pending, (q: Queued) => now - q.queuedAt <= l.ttl);
            var count := if dropsAfter.Some? && dropsAfter.value < |live| then dropsAfter.value else |live|;
            && t.connected == (dropsAfter == None) && t.pending == live[count..] && t.sent == s.sent + Map(live[..count], NumberOf)
            && t.next == s.next && t.handed == s.handed && t.overflowed == s.overflowed
            && Step(l, s, Disconnect) == s.(connected := false)
  {
    SameFilter(s.pending, Fresh(now, l.ttl), (q: Queued) => now - q.queuedAt <= l.ttl);
  }

  lemma {:induction false} SameFilter(q: seq<Queued>, a: Queued -> bool, b: Queued -> bool)
    requires forall x :: a(x) <==> b(x)
    ensures Filter(q, a) == Filter(q, b)
  {
    if q != [] { SameFilter(q[1..], a, b); }
  }
}
