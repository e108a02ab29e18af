/** The maintenance gate (migrations/quiesce.ts): a marker file owned by one release transaction. Commands run
    one at a time under the release lock; the world around them changes between any two of their steps, and
    they may be killed before any step. */
module QuiesceGate {
  import opened Common

  type Transaction = string

  datatype Status = Online | Stopped | Missing | Otherwise
  datatype Panel = Panel(api: Status, agent: Status)

  predicate BothOnline(p: Panel) { p.api == Online && p.agent == Online }
  predicate BothStopped(p: Panel) { p.api == Stopped && p.agent == Stopped }

  /** The fields of a release journal that recovery looks at; `readable` covers everything else. */
  datatype Journal = Journal(readable: bool, owner: Transaction, phase: string, committed: bool, snapshot: bool)

  /** The world at one step: processes, unfinished operations, journals, and whether PM2 and SQLite answer. */
  datatype World = World(panel: Panel, active: nat, journals: map<Transaction, Journal>, answers: bool)

  /** `Unsafe` is a marker that readMarker refuses to interpret. */
  datatype Marker = Absent | Unsafe | Owned(owner: Transaction, createdAt: string)

  datatype Outcome = Done | Threw | Killed

  /** assertSafeStaleJournal */
  predicate SafeJournal(journals: map<Transaction, Journal>, t: Transaction) {
    t in journals && journals[t].readable && journals[t].owner == t
    && journals[t].phase == "quiesce" && !journals[t].committed && !journals[t].snapshot
  }

  datatype Command =
    | Check
    | Quiesce(t: Transaction, now: string, drainPolls: nat)
    | Resume(t: Transaction, onlinePolls: nat)
    | Recover(lockHeld: bool, onlinePolls: nat)

  /** One command run: what it finds at each of its steps, and before which step it is killed. */
  datatype Invocation = Invocation(command: Command, world: nat -> World, kill: nat)

  // ------------------------------------------------------------- what a run may do

  ghost predicate SeenOnline(inv: Invocation, from: nat) {
    exists k | from <= k < inv.kill :: BothOnline(inv.world(k).panel)
  }

  ghost predicate SeenSafeThenOnline(inv: Invocation, t: Transaction) {
    exists j | 0 <= j < inv.kill :: SafeJournal(inv.world(j).journals, t) && SeenOnline(inv, j + 1)
  }

  /** The only reasons for a marker to disappear. */
  ghost predicate MayRelease(inv: Invocation, t: Transaction) {
    match inv.command
    case Resume(u, _) => u == t && SeenOnline(inv, 0)
    case Recover(lockHeld, _) => lockHeld && SeenSafeThenOnline(inv, t)
    case _ => false
  }

  /** The marker before and after one command run, killed or not. */
  ghost predicate GateStep(before: Marker, inv: Invocation, after: Marker) {
    || after == before
    || (before == Absent && inv.command.Quiesce? && after == Owned(inv.command.t, inv.command.now))
    || (before.Owned? && after == Absent && MayRelease(inv, before.owner))
  }

  /** Nothing stands in a command's way: the world keeps showing the wanted processes and no open operations. */
  ghost predicate Obliging(inv: Invocation, wanted: Status) {
    forall k: nat :: inv.world(k).answers && inv.world(k).active == 0
                     && inv.world(k).panel.api == wanted && inv.world(k).panel.agent == wanted
  }

  /** PM2 and SQLite answer at every step. */
  ghost predicate Answering(inv: Invocation) { forall k: nat :: inv.world(k).answers }

  /** How many processes are told to start after the first look. */
  function Starts(p: Panel): nat { (if p.api == Online then 0 else 1) + (if p.agent == Online then 0 else 1) }

  /** Neither process is missing at the first look, and one of the polls after the starts sees both online. */
  ghost predicate ComesOnline(inv: Invocation, at: nat, polls: nat) {
    var first := at + 1 + Starts(inv.world(at).panel);
    && inv.world(at).panel.api != Missing && inv.world(at).panel.agent != Missing
    && exists k | first <= k < first + polls :: BothOnline(inv.world(k).panel)
  }

  /** One of the polls sees no active operation. */
  ghost predicate Drains(inv: Invocation, at: nat, polls: nat) {
    exists k | at <= k < at + polls :: inv.world(k).active == 0
  }

  /** The step of the second look of a stop, and of the last one: a stop command takes a step of its own. */
  function SecondLook(inv: Invocation, at: nat): nat { if inv.world(at).panel.api == Stopped then at + 1 else at + 2 }
  function LastLook(inv: Invocation, at: nat): nat {
    var second := SecondLook(inv, at);
    if inv.world(second).panel.agent == Stopped then second + 1 else second + 2
  }

  ghost predicate Stops(inv: Invocation, at: nat) {
    && inv.world(at).panel.api != Missing && inv.world(SecondLook(inv, at)).panel.agent != Missing
    && BothStopped(inv.world(LastLook(inv, at)).panel)
  }

  /** The gate is free or already held by the transaction. */
  predicate OpenTo(m: Marker, t: Transaction) { m == Absent || (m.Owned? && m.owner == t) }

  // ------------------------------------------------------------------- the commands

  class MaintenanceGate {
    var marker: Marker

    constructor ()
      ensures marker == Absent
    {
      marker := Absent;
    }

    /** ensurePanelProcessesOnline, starting at step `at`; `polls` is how often the deadline lets it look. */
    method EnsureOnline(inv: Invocation, at: nat, polls: nat) returns (o: Outcome, next: nat)
      ensures at <= next
      ensures o == Done ==> next <= inv.kill && exists k | at <= k < next :: BothOnline(inv.world(k).panel)
      ensures Obliging(inv, Online) && polls > 0 && at + 2 <= inv.kill ==> o == Done && next == at + 2
      ensures Answering(inv) && at + 3 + polls <= inv.kill ==>
                next <= at + 3 + polls && o != Killed && (o == Done <==> ComesOnline(inv, at, polls))
    {
      next := at;
      if next >= inv.kill { return Killed, next; }
      var seen := inv.world(next);
      next := next + 1;
      if !seen.answers { return Threw, next; }
      var statuses := [seen.panel.api, seen.panel.agent];
      for i := 0 to 2
        invariant at <= next && (Obliging(inv, Online) ==> next == at + 1)
        invariant next == at + 1 + |Filter(statuses[..i], NotOnline)|
        invariant forall j | 0 <= j < i :: statuses[j] != Missing
      {
        NextPrefix(statuses, i);
        FilterOne(statuses[..i], statuses[i], NotOnline);
        if statuses[i] == Missing { return Threw, next; }
        if statuses[i] != Online {
          if next >= inv.kill { return Killed, next; }
          if !inv.world(next).answers { return Threw, next; }
          next := next + 1;
        }
      }
      WholePrefix(statuses);
      CountStarts(seen.panel);
      ghost var first := next;
      for i := 0 to polls
        invariant at <= next && (Obliging(inv, Online) ==> i == 0 && next == at + 1)
        invariant next == first + i && forall k | first <= k < next :: !BothOnline(inv.world(k).panel)
      {
        if next >= inv.kill { return Killed, next; }
        var poll := inv.world(next);
        next := next + 1;
        if !poll.answers { return Threw, next; }
        if BothOnline(poll.panel) { return Done, next; }
      }
      o := Threw;
    }

    /** stopPanelProcesses */
    method StopPanel(inv: Invocation, at: nat) returns (o: Outcome, next: nat)
      ensures at <= next
      ensures o == Done ==> at < next <= inv.kill && BothStopped(inv.world(next - 1).panel)
      ensures Obliging(inv, Stopped) && at + 3 <= inv.kill ==> o == Done
      ensures Answering(inv) && at + 5 <= inv.kill ==> o != Killed && (o == Done <==> Stops(inv, at))
    {
      next := at;
      for i := 0 to 2
        invariant at <= next && (Obliging(inv, Stopped) ==> next == at + i)
        invariant next == (if i == 0 then at else if i == 1 then SecondLook(inv, at) else LastLook(inv, at))
        invariant i > 0 ==> inv.world(at).panel.api != Missing
        invariant i > 1 ==> inv.world(SecondLook(inv, at)).panel.agent != Missing
      {
        if next >= inv.kill { return Killed, next; }
        var seen := inv.world(next);
        next := next + 1;
        if !seen.answers { return Threw, next; }
        var status := if i == 0 then seen.panel.api else seen.panel.agent;
        if status == Missing { return Threw, next; }
        if status != Stopped {
          if next >= inv.kill { return Killed, next; }
          if !inv.world(next).answers { return Threw, next; }
          next := next + 1;
        }
      }
      if next >= inv.kill { return Killed, next; }
      var last := inv.world(next);
      next := next + 1;
      o := if last.answers && BothStopped(last.panel) then Done else Threw;
    }

    /** waitForOperations */
    method WaitForOperations(inv: Invocation, at: nat, polls: nat) returns (o: Outcome, next: nat)
      ensures at <= next
      ensures o == Done ==> at < next <= inv.kill && inv.world(next - 1).active == 0
      ensures Obliging(inv, Stopped) && polls > 0 && at < inv.kill ==> o == Done && next == at + 1
      ensures Answering(inv) && at + polls <= inv.kill ==> next <= at + polls && o != Killed && (o == Done <==> Drains(inv, at, polls))
    {
      next := at;
      for i := 0 to polls
        invariant at <= next && (Obliging(inv, Stopped) ==> i == 0 && next == at)
        invariant next == at + i && forall k | at <= k < next :: inv.world(k).active != 0
      {
        if next >= inv.kill { return Killed, next; }
        var seen := inv.world(next);
        next := next + 1;
        if !seen.answers { return Threw, next; }
        if seen.active == 0 { return Done, next; }
      }
      o := Threw;
    }

    /** writeMarker: reading and the final rename are the two steps that matter. */
    method WriteMarker(inv: Invocation, at: nat, t: Transaction, now: string) returns (o: Outcome, next: nat)
      modifies this
      ensures at <= next && (o == Done ==> next <= inv.kill)
      ensures marker == old(marker) || (old(marker) == Absent && marker == Owned(t, now))
      ensures o == Done ==> marker.Owned? && marker.owner == t
      ensures next <= at + 2 && (at + 2 <= inv.kill ==> (o == Done <==> OpenTo(old(marker), t)))
    {
      next := at;
      if next >= inv.kill { return Killed, next; }
      next := next + 1;
      if marker == Unsafe { return Threw, next; }
      if marker.Owned? {
        return if marker.owner == t then Done else Threw, next;
      }
      if next >= inv.kill { return Killed, next; }
      next := next + 1;
      marker := Owned(t, now);
      o := Done;
    }

    method CheckGate(inv: Invocation) returns (o: Outcome)
      requires inv.command.Check?
      ensures o == Done ==> marker == Absent && inv.kill >= 2 && inv.world(1).active == 0
      ensures Answering(inv) && inv.kill >= 2 ==> (o == Done <==> marker == Absent && inv.world(1).active == 0)
    {
      if inv.kill == 0 { return Killed; }
      if marker != Absent { return Threw; }
      if inv.kill == 1 { return Killed; }
      o := if inv.world(1).answers && inv.world(1).active == 0 then Done else Threw;
    }

    /** quiesce: first take the gate, then drain, then stop the panel. */
    method QuiescePanel(inv: Invocation) returns (o: Outcome)
      requires inv.command.Quiesce?
      modifies this
      ensures GateStep(old(marker), inv, marker)
      ensures o == Done ==> marker.Owned? && marker.owner == inv.command.t
                            && exists p, q | 0 <= p < q < inv.kill :: inv.world(p).active == 0 && BothStopped(inv.world(q).panel)
      ensures old(marker).Owned? && old(marker).owner != inv.command.t ==> o != Done
      ensures Obliging(inv, Stopped) && inv.command.drainPolls > 0 && inv.kill >= 6 && OpenTo(old(marker), inv.command.t) ==> o == Done
    {
      var next;
      o, next := WriteMarker(inv, 0, inv.command.t, inv.command.now);
      if o != Done { return; }
      o, next := WaitForOperations(inv, next, inv.command.drainPolls);
      if o != Done { return; }
      ghost var drained := next - 1;
      o, next := StopPanel(inv, next);
      if o == Done {
        assert inv.world(drained).active == 0 && BothStopped(inv.world(next - 1).panel);
      }
    }

    /** resume: the panel must be seen online before the gate opens. */
    method ResumePanel(inv: Invocation) returns (o: Outcome)
      requires inv.command.Resume?
      modifies this
      ensures GateStep(old(marker), inv, marker)
      ensures o == Done ==> marker == Absent
      ensures old(marker).Owned? && old(marker).owner != inv.command.t ==> marker == old(marker) && o != Done
      ensures Obliging(inv, Online) && inv.command.onlinePolls > 0 && inv.kill >= 4 && OpenTo(old(marker), inv.command.t) ==> o == Done
      ensures Answering(inv) && inv.kill >= inv.command.onlinePolls + 5 ==>
                (o == Done <==> ComesOnline(inv, 0, inv.command.onlinePolls) && OpenTo(old(marker), inv.command.t))
    {
      var next;
      o, next := EnsureOnline(inv, 0, inv.command.onlinePolls);
      if o != Done { return; }
      if next >= inv.kill { return Killed; }
      if marker == Absent { return Done; }
      if marker == Unsafe || marker.owner != inv.command.t { return Threw; }
      if next + 1 >= inv.kill { return Killed; }
      marker := Absent;
    }

    /** recover-stale: only with the lock, a journal that proves nothing was committed, and a running panel. */
    method RecoverStale(inv: Invocation) returns (o: Outcome)
      requires inv.command.Recover?
      modifies this
      ensures GateStep(old(marker), inv, marker)
      ensures o == Done ==> marker == Absent
      ensures Obliging(inv, Online) && inv.command.onlinePolls > 0 && inv.kill >= 6 && inv.command.lockHeld && old(marker).Owned?
              ==> (o == Done <==> SafeJournal(inv.world(1).journals, old(marker).owner))
      ensures Answering(inv) && inv.command.lockHeld && inv.kill >= inv.command.onlinePolls + 7 && old(marker).Owned? ==>
                (o == Done <==> SafeJournal(inv.world(1).journals, old(marker).owner) && ComesOnline(inv, 2, inv.command.onlinePolls))
      ensures !inv.command.lockHeld ==> o == Threw && marker == old(marker)
    {
      if !inv.command.lockHeld { return Threw; }
      if inv.kill == 0 { return Killed; }
      if marker == Absent { return Done; }
      if marker == Unsafe { return Threw; }
      var stale := marker;
      if inv.kill == 1 { return Killed; }
      if !SafeJournal(inv.world(1).journals, stale.owner) { return Threw; }
      var next;
      o, next := EnsureOnline(inv, 2, inv.command.onlinePolls);
      if o != Done { return; }
      assert SeenOnline(inv, 2);
      if next >= inv.kill { return Killed; }
      if marker != stale { return Threw; }
      if next + 1 >= inv.kill { return Killed; }
      marker := Absent;
    }

    method Execute(inv: Invocation) returns (o: Outcome)
      modifies this
      ensures GateStep(old(marker), inv, marker)
    {
      match inv.command {
        case Check => o := CheckGate(inv);
        case Quiesce(_, _, _) => o := QuiescePanel(inv);
        case Resume(_, _) => o := ResumePanel(inv);
        case Recover(_, _) => o := RecoverStale(inv);
      }
    }

    /** Any number of commands, one after the other. */
    method ExecuteAll(invocations: seq<Invocation>) returns (ghost history: seq<Marker>)
      modifies this
      ensures GateRun(invocations, history) && history[0] == old(marker) && history[|invocations|] == marker
    {
      history := [marker];
      for i := 0 to |invocations|
        invariant GateRun(invocations[..i], history) && history[0] == old(marker) && history[i] == marker
      {
        var o := Execute(invocations[i]);
        history := history + [marker];
        assert invocations[..i + 1] == invocations[..i] + [invocations[i]];
      }
      WholePrefix(invocations);
    }
  }

  predicate NotOnline(status: Status) { status != Online }

  lemma {:induction false} CountStarts(p: Panel)
    ensures |Filter([p.api, p.agent], NotOnline)| == Starts(p)
  {
    assert [p.api, p.agent] == [p.api] + [p.agent] && [p.api][1..] == [] && [p.agent][1..] == [];
    FilterAppend([p.api], [p.agent], NotOnline);
  }

  /** Recovery opens the gate only with the lock and with a journal, read before the processes were seen online,
      that belongs to the marker's owner, stands at phase quiesce and records neither commit nor snapshot. */
  lemma {:induction false} RecoveryNeedsSafeJournal(before: Marker, inv: Invocation, after: Marker)
    requires GateStep(before, inv, after) && inv.command.Recover? && after != before
    ensures before.Owned? && after == Absent && inv.command.lockHeld
    ensures exists j, k | 0 <= j < k < inv.kill ::
              && before.owner in inv.world(j).journals
              && var journal := inv.world(j).journals[before.owner];
              && journal.readable && journal.owner == before.owner && journal.phase == "quiesce"
              && !journal.committed && !journal.snapshot
              && inv.world(k).panel == Panel(Online, Online)
  {
    var j :| 0 <= j < inv.kill && SafeJournal(inv.world(j).journals, before.owner) && SeenOnline(inv, j + 1);
    var k :| j + 1 <= k < inv.kill && BothOnline(inv.world(k).panel);
    assert 0 <= j < k < inv.kill;
  }

  // --------------------------------------------------------------------- every run

  /** A serialised run: the marker between the commands. */
  ghost predicate GateRun(invocations: seq<Invocation>, history: seq<Marker>) {
    |history| == |invocations| + 1
    && forall i | 0 <= i < |invocations| :: GateStep(history[i], invocations[i], history[i + 1])
  }

  /** A marker is never overwritten: whoever finds it changed later finds the step that released it, and that
      step was the owner's resume or a proven recovery, with both processes seen online before. */
  lemma {:induction false} OwnedUntilReleased(invocations: seq<Invocation>, history: seq<Marker>, i: nat, j: nat) returns (k: nat)
    requires GateRun(invocations, history) && i <= j < |history|
    requires history[i].Owned? && history[j] != history[i]
    ensures i <= k < j && (forall m | i <= m <= k :: history[m] == history[i])
    ensures history[k + 1] == Absent && MayRelease(invocations[k], history[i].owner)
    decreases j - i
  {
    if history[i + 1] != history[i] {
      k := i;
      assert GateStep(history[i], invocations[i], history[i + 1]);
    } else {
      k := OwnedUntilReleased(invocations, history, i + 1, j);
      assert history[i + 1] == history[i];
    }
  }

  /** Whoever owns the gate took it while it was free: every owned marker goes back to a quiesce of its owner. */
  lemma {:induction false} OwnedSinceTaken(invocations: seq<Invocation>, history: seq<Marker>, j: nat) returns (k: nat)
    requires GateRun(invocations, history) && j < |history|
    requires history[0] == Absent && history[j].Owned?
    ensures k < j && history[k] == Absent && (forall m | k < m <= j :: history[m] == history[j])
    ensures invocations[k].command.Quiesce? && invocations[k].command.t == history[j].owner
    decreases j
  {
    assert GateStep(history[j - 1], invocations[j - 1], history[j]);
    if history[j - 1] == history[j] {
      k := OwnedSinceTaken(invocations, history, j - 1);
    } else {
      k := j - 1;
    }
  }

  /** Without a resume of the owner, a gate stays closed as long as its journal never proves it harmless. */
  lemma {:induction false} CommittedGateStaysClosed(invocations: seq<Invocation>, history: seq<Marker>, i: nat, j: nat)
    requires GateRun(invocations, history) && i <= j < |history| && history[i].Owned?
    requires forall m | i <= m < j :: invocations[m].command.Resume? ==> invocations[m].command.t != history[i].owner
    requires forall m, n: nat | i <= m < j :: !SafeJournal(invocations[m].world(n).journals, history[i].owner)
    ensures history[j] == history[i]
    decreases j - i
  {
    if i < j {
      assert GateStep(history[i], invocations[i], history[i + 1]);
      assert !MayRelease(invocations[i], history[i].owner);
      CommittedGateStaysClosed(invocations, history, i + 1, j);
    }
  }
}
