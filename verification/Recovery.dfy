/**
 * What the relay can still reach: after a crash, every pending row, by the ticks of one replica
 * whose SELECTs return the oldest rows; and from any state, whether an event can be accepted again.
 */
module Recovery {
  import opened Wrappers
  import opened Outbox
  import opened RelayTick

  // ----- The SELECT always has an answer -----

  lemma {:induction false} EarliestOf(rows: map<nat, Row>, ids: set<nat>) returns (earliest: nat)
    requires ids <= rows.Keys && ids != {}
    ensures earliest in ids && forall id | id in ids :: rows[earliest].createdAt <= rows[id].createdAt
  {
    earliest :| earliest in ids;
    if ids != {earliest} {
      assert ids - {earliest} != {};
      var other := EarliestOf(rows, ids - {earliest});
      var first := earliest;
      if rows[other].createdAt < rows[first].createdAt {
        earliest := other;
      }
      forall id | id in ids ensures rows[earliest].createdAt <= rows[id].createdAt {
        assert id == first || id in ids - {first};
      }
    }
  }

  lemma {:induction false} OldestOf(rows: map<nat, Row>, ids: set<nat>, n: nat) returns (batch: seq<nat>)
    requires ids <= rows.Keys && n <= |ids|
    ensures |batch| == n && Distinct(batch) && (forall i | 0 <= i < |batch| :: batch[i] in ids)
    ensures AreOldest(rows, ids, batch)
  {
    if n == 0 {
      batch := [];
    } else {
      var earliest := EarliestOf(rows, ids);
      var rest := OldestOf(rows, ids - {earliest}, n - 1);
      batch := [earliest] + rest;
    }
  }

  lemma OldestBatchExists(rows: map<nat, Row>, locked: set<nat>) returns (batch: seq<nat>)
    ensures IsOldestBatch(rows, locked, batch)
  {
    var ids := Available(rows, locked);
    batch := OldestOf(rows, ids, Min(BATCH_SIZE, |ids|));
  }

  // ----- One replica on its own drains the table -----

  /** Every pending row completed, every other one left as it is. */
  function Drained(rows: map<nat, Row>): map<nat, Row> {
    map id | id in rows :: if rows[id].status == Pending then rows[id].(status := Completed) else rows[id]
  }

  /** One undisturbed tick: it completes and publishes the oldest rows, and the replica is idle again. */
  lemma UndisturbedTick(route: Route, s: System, r: nat)
    returns (states: seq<System>, steps: seq<Step>, batch: seq<nat>)
    requires IsIdle(s, r)
    ensures |states| == |steps| + 1 && RunFrom(route, s, states, steps) && AreUndisturbed(steps, r)
    ensures IsOldestBatch(s.rows, {}, batch)
    ensures var s' := states[|steps|];
            && s'.rows == Completing(s.rows, batch) && s'.events.Keys == s.events.Keys + Ids(batch) && IsIdle(s', r)
            && |PendingIds(s'.rows)| == |PendingIds(s.rows)| - Min(BATCH_SIZE, |PendingIds(s.rows)|)
  {
    batch := OldestBatchExists(s.rows, {});
    var fs := seq(|batch|, i => Faults(true, true, true, true, true, true));
    states, steps := TickIsRun(route, s, r, batch, {}, fs);
    FaultFreeTick(Effect(s.rows, s.events, s.acceptedEvents, 0, false), batch, {}, fs);
  }

  lemma StillUndisturbed(steps: seq<Step>, later: seq<Step>, r: nat)
    requires AreUndisturbed(steps, r) && AreUndisturbed(later, r)
    ensures AreUndisturbed(steps + later, r)
  {
  }

  lemma DrainedInParts(rows: map<nat, Row>, batch: seq<nat>)
    requires IsOldestBatch(rows, {}, batch)
    ensures Drained(Completing(rows, batch)) == Drained(rows)
    ensures PendingIds(rows) == PendingIds(Completing(rows, batch)) + Ids(batch)
  {
  }

  lemma NothingPending(route: Route, s: System, r: nat)
    requires PendingIds(s.rows) == {}
    ensures RunFrom(route, s, [s], []) && AreUndisturbed([], r) && Drained(s.rows) == s.rows
  {
    assert forall id | id in s.rows :: id !in PendingIds(s.rows);
  }

  lemma {:induction false} Drain(route: Route, s: System, r: nat) returns (states: seq<System>, steps: seq<Step>)
    requires IsIdle(s, r)
    ensures |states| == |steps| + 1 && RunFrom(route, s, states, steps) && AreUndisturbed(steps, r)
    ensures states[|steps|].rows == Drained(s.rows)
    ensures states[|steps|].events.Keys == s.events.Keys + PendingIds(s.rows)
    decreases |PendingIds(s.rows)|
  {
    hide RunFrom, Drained, Completing, PendingIds, IsOldestBatch, IsIdle, AreUndisturbed, Ids;
    if PendingIds(s.rows) == {} {
      states, steps := [s], [];
      NothingPending(route, s, r);
    } else {
      var batch;
      states, steps, batch := UndisturbedTick(route, s, r);
      DrainedInParts(s.rows, batch);
      var later, laterSteps := Drain(route, states[|steps|], r);
      Join(route, s, states, steps, later, laterSteps);
      StillUndisturbed(steps, laterSteps, r);
      states, steps := states + later[1..], steps + laterSteps;
    }
  }

  /**
   * A crash loses nothing: the crashed replica alone, restarted, with SELECTs that return the
   * oldest rows, brings the table to where every row that was pending is published and completed.
   */
  lemma CrashLosesNothing(route: Route, s: System, r: nat)
    returns (crashed: System, states: seq<System>, steps: seq<Step>)
    requires Enabled(s, Crash(r))
    ensures crashed == Apply(route, s, Crash(r))
    ensures crashed.rows == s.rows && crashed.events == s.events && crashed.children == s.children
    ensures RunFrom(route, crashed, states, steps) && AreUndisturbed(steps, r)
    ensures states[|steps|].rows == Drained(s.rows)
    ensures states[|steps|].events.Keys == s.events.Keys + PendingIds(s.rows)
  {
    crashed := Apply(route, s, Crash(r));
    states, steps := Drain(route, crashed, r);
  }

  // ----- From the row to the child queue -----

  lemma {:induction false} RunFromKeepsCopies(route: Route, s: System, states: seq<System>, steps: seq<Step>, i: nat)
    requires RunFrom(route, s, states, steps) && i <= |steps| && CopiesOk(s)
    ensures CopiesOk(states[i])
  {
    if i > 0 {
      RunFromKeepsCopies(route, s, states, steps, i - 1);
      StepKeepsCopies(route, states[i - 1], steps[i - 1]);
    }
  }

  /** A worker that is given a retained event brings the job it routes to into its queue. */
  lemma DeliveryReachesChild(route: Route, s: System, id: nat, c: Child) returns (states: seq<System>, steps: seq<Step>)
    requires id in s.events && route(id, s.events[id]) == Some(c)
    ensures |states| == |steps| + 1 && RunFrom(route, s, states, steps)
    ensures var s' := states[|steps|];
            && s'.children == s.children + {c} && s'.rows == s.rows && s'.events == s.events
            && s'.acceptedChildren == if c in s.children then s.acceptedChildren else s.acceptedChildren + [c]
  {
    var w := FreshId(s.workers.Keys);
    var (deliver, add) := (Deliver(w, id), AddChild(w, true));
    var delivered := Apply(route, s, deliver);
    assert Enabled(s, deliver) && Enabled(delivered, add);
    states, steps := [s, delivered, Apply(route, delivered, add)], [deliver, add];
  }

  /** So every pending row can reach the child queue of its event, however many rows are older. */
  lemma PendingReachesChild(route: Route, s: System, id: nat, c: Child) returns (states: seq<System>, steps: seq<Step>)
    requires CopiesOk(s) && id in s.rows && s.rows[id].status == Pending && route(id, s.rows[id].content) == Some(c)
    ensures RunFrom(route, s, states, steps)
    ensures c in states[|steps|].children && IsCompleted(states[|steps|], id)
  {
    var r := FreshId(s.replicas.Keys);
    states, steps := Drain(route, s, r);
    var drained := states[|steps|];
    RunFromKeepsCopies(route, s, states, steps, |steps|);
    assert id in PendingIds(s.rows);
    assert Genuine(drained, Job(id, drained.events[id]));
    var later, laterSteps := DeliveryReachesChild(route, drained, id, c);
    Join(route, s, states, steps, later, laterSteps);
    states, steps := states + later[1..], steps + laterSteps;
  }

  // ----- When an event can be accepted again -----

  lemma StepRetains(route: Route, s: System, step: Step, id: nat)
    requires Enabled(s, step) && id !in s.events && id in Apply(route, s, step).events
    ensures CountId(Apply(route, s, step).acceptedEvents, id) > CountId(s.acceptedEvents, id)
  {
    var (before, after) := (s.acceptedEvents, Apply(route, s, step).acceptedEvents);
    assert step.Add? && |after| == |before| + 1;
    CountIdSnoc(before, after[|before|], id);
  }

  /** What a run retains and did not retain before, it accepted. */
  lemma {:induction false} RetainedWasAccepted(
    route: Route, s: System, id: nat, states: seq<System>, steps: seq<Step>, i: nat)
    requires RunFrom(route, s, states, steps) && i <= |steps| && id !in s.events
    ensures CountId(states[i].acceptedEvents, id) >= CountId(s.acceptedEvents, id)
    ensures id in states[i].events ==> CountId(states[i].acceptedEvents, id) > CountId(s.acceptedEvents, id)
  {
    if i > 0 {
      RetainedWasAccepted(route, s, id, states, steps, i - 1);
      StepKeepsCount(route, states[i - 1], steps[i - 1], id);
      if id in states[i].events && id !in states[i - 1].events {
        StepRetains(route, states[i - 1], steps[i - 1], id);
      }
    }
  }

  /** A pending row can be published, however many rows are older, even if its event was before. */
  lemma PendingCanBeAccepted(route: Route, s: System, id: nat) returns (states: seq<System>, steps: seq<Step>)
    requires id in s.rows && s.rows[id].status == Pending
    ensures RunFrom(route, s, states, steps)
    ensures CountId(states[|steps|].acceptedEvents, id) > CountId(s.acceptedEvents, id)
  {
    var r := FreshId(s.replicas.Keys);
    if id in s.events {
      var free := Apply(route, s, EvictEvent(id));
      states, steps := Drain(route, free, r);
      RetainedWasAccepted(route, free, id, states, steps, |steps|);
      Prepend(route, s, EvictEvent(id), states, steps);
      states, steps := [s] + states, [EvictEvent(id)] + steps;
    } else {
      states, steps := Drain(route, s, r);
      RetainedWasAccepted(route, s, id, states, steps, |steps|);
    }
  }

  /** Whatever was accepted before, a stored event can be accepted once more exactly while it is offerable. */
  lemma AcceptedMoreIffOfferable(route: Route, s: System, id: nat)
    requires id in s.rows
    ensures CanBeAcceptedMore(route, s, id) <==> Offerable(s, id)
  {
    if Offerable(s, id) {
      if s.rows[id].status == Pending {
        var states, steps := PendingCanBeAccepted(route, s, id);
      } else {
        var r, k :| r in s.replicas && Offers(s.replicas[r], k, id);
        var states, steps := OffersLeadToAcceptance(route, s, r, k, id);
      }
    } else {
      forall states: seq<System>, steps: seq<Step> | RunFrom(route, s, states, steps)
        ensures CountId(states[|steps|].acceptedEvents, id) == CountId(s.acceptedEvents, id)
      {
        UnofferableStays(route, s, id, states, steps, |steps|);
      }
    }
  }
}
