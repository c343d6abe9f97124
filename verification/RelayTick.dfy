/** One relay tick: the loop over the batch, with every failure its two awaits can meet. */
module RelayTick {
  import opened Wrappers
  import opened Outbox

  /** For each call of one iteration: did it take effect, and did the caller learn so. */
  datatype Faults = Faults(addTook: bool, addOk: bool, markTook: bool, markOk: bool, failTook: bool, failOk: bool)

  predicate Possible(f: Faults) {
    (f.addOk ==> f.addTook) && (f.markOk ==> f.markTook) && (f.failOk ==> f.failTook)
  }

  predicate FaultFree(f: Faults) {
    f.addTook && f.addOk && f.markTook && f.markOk
  }

  function PendingIds(rows: map<nat, Row>): set<nat> {
    Available(rows, {})
  }

  class OutboxTable {
    var rows: map<nat, Row>

    constructor (rows: map<nat, Row>)
      ensures this.rows == rows
    {
      this.rows := rows;
    }

    method SetStatus(id: nat, status: Status, took: bool)
      modifies this
      ensures rows == if took then WithStatus(old(rows), id, status) else old(rows)
    {
      if took && id in rows {
        rows := rows[id := rows[id].(status := status)];
      }
    }
  }

  class EventsQueue {
    var retained: map<nat, Content>
    var accepted: seq<Job>

    constructor ()
      ensures retained == map[] && accepted == []
    {
      retained, accepted := map[], [];
    }

    method Add(job: Job, took: bool)
      modifies this
      ensures retained == if took && job.id !in old(retained) then old(retained)[job.id := job.content] else old(retained)
      ensures accepted == if took && job.id !in old(retained) then old(accepted) + [job] else old(accepted)
    {
      if took && job.id !in retained {
        retained := retained[job.id := job.content];
        accepted := accepted + [job];
      }
    }
  }

  // ----- What a tick does, row by row -----

  datatype Effect = Effect(rows: map<nat, Row>, retained: map<nat, Content>, accepted: seq<Job>, processed: nat, aborted: bool)

  function RelayRow(e: Effect, job: Job, f: Faults): Effect {
    if e.aborted then e
    else
      var isNew := f.addTook && job.id !in e.retained;
      var retained := if isNew then e.retained[job.id := job.content] else e.retained;
      var accepted := if isNew then e.accepted + [job] else e.accepted;
      var marked := if f.addOk && f.markTook then WithStatus(e.rows, job.id, Completed) else e.rows;
      if f.addOk && f.markOk then Effect(marked, retained, accepted, e.processed + 1, false)
      else Effect(if f.failTook then WithStatus(marked, job.id, Failed) else marked,
                  retained, accepted, e.processed, !f.failOk)
  }

  function RelayRows(e: Effect, jobs: seq<Job>, fs: seq<Faults>): Effect
    requires |jobs| == |fs|
  {
    if jobs == [] then e
    else RelayRow(RelayRows(e, jobs[..|jobs| - 1], fs[..|jobs| - 1]), jobs[|jobs| - 1], fs[|jobs| - 1])
  }

  /** The loop body: enqueue, then mark; `aborted` is the exception of an UPDATE failing in the catch block. */
  method RelayOne(table: OutboxTable, queue: EventsQueue, job: Job, f: Faults, before: nat)
    returns (processed: nat, aborted: bool)
    modifies table, queue
    ensures Effect(table.rows, queue.retained, queue.accepted, processed, aborted)
         == RelayRow(Effect(old(table.rows), old(queue.retained), old(queue.accepted), before, false), job, f)
  {
    processed, aborted := before, false;
    queue.Add(job, f.addTook);
    var failed := !f.addOk;
    if f.addOk {
      table.SetStatus(job.id, Completed, f.markTook);
      failed := !f.markOk;
    }
    if failed {
      table.SetStatus(job.id, Failed, f.failTook);
      aborted := !f.failOk;
    } else {
      processed := processed + 1;
    }
  }

  method RelayPendingEvents(table: OutboxTable, queue: EventsQueue, pending: seq<nat>, fs: seq<Faults>)
    returns (processed: nat, aborted: bool)
    requires forall i | 0 <= i < |pending| :: pending[i] in table.rows
    requires |fs| == |pending|
    modifies table, queue
    ensures Effect(table.rows, queue.retained, queue.accepted, processed, aborted)
         == RelayRows(Effect(old(table.rows), old(queue.retained), old(queue.accepted), 0, false),
                      Selected(old(table.rows), pending), fs)
  {
    hide RelayRow;
    ghost var start := Effect(table.rows, queue.retained, queue.accepted, 0, false);
    var jobs := Selected(table.rows, pending);
    processed, aborted := 0, false;
    for i := 0 to |jobs|
      invariant !aborted
      invariant Effect(table.rows, queue.retained, queue.accepted, processed, aborted) == RelayRows(start, jobs[..i], fs[..i])
    {
      assert jobs[..i + 1][..i] == jobs[..i] && fs[..i + 1][..i] == fs[..i];
      processed, aborted := RelayOne(table, queue, jobs[i], fs[i], processed);
      if aborted {
        AbortIsFinal(start, jobs, fs, i + 1);
        return;
      }
    }
    assert jobs[..|jobs|] == jobs && fs[..|jobs|] == fs;
  }

  lemma {:induction false} AbortIsFinal(e: Effect, jobs: seq<Job>, fs: seq<Faults>, k: nat)
    requires |jobs| == |fs| && k <= |jobs| && RelayRows(e, jobs[..k], fs[..k]).aborted
    ensures RelayRows(e, jobs, fs) == RelayRows(e, jobs[..k], fs[..k])
    decreases |jobs|
  {
    if k == |jobs| {
      assert jobs[..k] == jobs && fs[..k] == fs;
    } else {
      var n := |jobs| - 1;
      assert jobs[..n][..k] == jobs[..k] && fs[..n][..k] == fs[..k];
      AbortIsFinal(e, jobs[..n], fs[..n], k);
    }
  }

  // ----- Whatever fails -----

  lemma RelayRowTouchesOnlyItsRow(e: Effect, job: Job, f: Faults)
    ensures var e' := RelayRow(e, job, f);
            && e'.rows.Keys == e.rows.Keys
            && (forall id | id in e.rows :: RowKept(e.rows[id], e'.rows[id]))
            && (forall id | id in e.rows && id != job.id :: e'.rows[id] == e.rows[id])
  {
  }

  /** Only rows of the batch change, none to pending, and none is added or lost. */
  lemma {:induction false} TickTouchesOnlyItsBatch(e: Effect, jobs: seq<Job>, fs: seq<Faults>)
    requires |jobs| == |fs|
    ensures RelayRows(e, jobs, fs).rows.Keys == e.rows.Keys
    ensures forall id | id in e.rows :: RowKept(e.rows[id], RelayRows(e, jobs, fs).rows[id])
    ensures forall id | id in e.rows && (forall j | j in jobs :: j.id != id) :: RelayRows(e, jobs, fs).rows[id] == e.rows[id]
  {
    if jobs != [] {
      var n := |jobs| - 1;
      var mid := RelayRows(e, jobs[..n], fs[..n]);
      TickTouchesOnlyItsBatch(e, jobs[..n], fs[..n]);
      RelayRowTouchesOnlyItsRow(mid, jobs[n], fs[n]);
      assert jobs == jobs[..n] + [jobs[n]];
      forall id | id in e.rows
        ensures RowKept(e.rows[id], RelayRows(e, jobs, fs).rows[id])
      {
        assert RowKept(e.rows[id], mid.rows[id]) && RowKept(mid.rows[id], RelayRows(e, jobs, fs).rows[id]);
      }
    }
  }

  /** Every row the tick completed was offered to the queue first, which retains it. */
  lemma {:induction false} CompletedRowsAreRetained(e: Effect, jobs: seq<Job>, fs: seq<Faults>, id: nat)
    requires |jobs| == |fs| && (forall i | 0 <= i < |fs| :: Possible(fs[i]))
    requires id in e.rows && e.rows[id].status != Completed
    ensures var e' := RelayRows(e, jobs, fs);
            && id in e'.rows
            && (forall k | k in e.retained :: k in e'.retained)
            && (e'.rows[id].status == Completed ==> id in e'.retained)
  {
    if jobs != [] {
      CompletedRowsAreRetained(e, jobs[..|jobs| - 1], fs[..|jobs| - 1], id);
    }
  }

  /** The calls of one iteration, as steps of the system. */
  function CallsOf(r: nat, f: Faults): seq<Step> {
    [Add(r, f.addTook, f.addOk)]
    + (if f.addOk then [MarkCompleted(r, f.markTook, f.markOk)] else [])
    + (if f.addOk && f.markOk then [] else [MarkFailed(r, f.failTook, f.failOk)])
  }

  function AfterCalls(route: Route, s: System, r: nat, f: Faults): System
    requires Working(s, r, Adding) && Possible(f)
  {
    var added := Apply(route, s, Add(r, f.addTook, f.addOk));
    var marked := if f.addOk then Apply(route, added, MarkCompleted(r, f.markTook, f.markOk)) else added;
    if f.addOk && f.markOk then marked else Apply(route, marked, MarkFailed(r, f.failTook, f.failOk))
  }

  lemma AfterAdd(route: Route, s: System, r: nat, took: bool, ok: bool)
    requires Working(s, r, Adding) && (ok ==> took)
    ensures var (t, s') := (s.replicas[r], Apply(route, s, Add(r, took, ok)));
            var (job, isNew) := (t.batch[t.next], took && t.batch[t.next].id !in s.events);
            && s'.rows == s.rows
            && s'.events == (if isNew then s.events[job.id := job.content] else s.events)
            && s'.acceptedEvents == (if isNew then s.acceptedEvents + [job] else s.acceptedEvents)
            && r in s'.replicas && s'.replicas[r] == t.(phase := if ok then Marking else MarkingFailed)
  {
  }

  lemma AfterMark(route: Route, s: System, r: nat, took: bool, ok: bool)
    requires Working(s, r, Marking) && (ok ==> took)
    ensures var (t, s') := (s.replicas[r], Apply(route, s, MarkCompleted(r, took, ok)));
            && s'.rows == (if took then WithStatus(s.rows, t.batch[t.next].id, Completed) else s.rows)
            && s'.events == s.events && s'.acceptedEvents == s.acceptedEvents && r in s'.replicas
            && s'.replicas[r] == (if ok then Tick(t.batch, t.next + 1, Adding) else t.(phase := MarkingFailed))
  {
  }

  lemma AfterMarkFailed(route: Route, s: System, r: nat, took: bool, ok: bool)
    requires Working(s, r, MarkingFailed) && (ok ==> took)
    ensures var (t, s') := (s.replicas[r], Apply(route, s, MarkFailed(r, took, ok)));
            && s'.rows == (if took then WithStatus(s.rows, t.batch[t.next].id, Failed) else s.rows)
            && s'.events == s.events && s'.acceptedEvents == s.acceptedEvents && (r in s'.replicas <==> ok)
            && (ok ==> s'.replicas[r] == Tick(t.batch, t.next + 1, Adding))
  {
  }

  /** One iteration is the replica's steps of the transition system. */
  lemma RelayRowIsSystemSteps(route: Route, s: System, r: nat, f: Faults, processed: nat)
    requires Working(s, r, Adding) && Possible(f)
    ensures var (t, s') := (s.replicas[r], AfterCalls(route, s, r, f));
            && RelayRow(Effect(s.rows, s.events, s.acceptedEvents, processed, false), t.batch[t.next], f)
               == Effect(s'.rows, s'.events, s'.acceptedEvents, processed + (if f.addOk && f.markOk then 1 else 0),
                         r !in s'.replicas)
            && (r in s'.replicas ==> s'.replicas[r] == Tick(t.batch, t.next + 1, Adding))
  {
    hide Apply, WithStatus;
    AfterAdd(route, s, r, f.addTook, f.addOk);
    var reached := Apply(route, s, Add(r, f.addTook, f.addOk));
    if f.addOk {
      AfterMark(route, reached, r, f.markTook, f.markOk);
      reached := Apply(route, reached, MarkCompleted(r, f.markTook, f.markOk));
    }
    if !(f.addOk && f.markOk) {
      AfterMarkFailed(route, reached, r, f.failTook, f.failOk);
    }
  }

  /** The run, continued by one enabled step. */
  lemma Then(route: Route, s: System, states: seq<System>, steps: seq<Step>, step: Step) returns (longer: seq<System>)
    requires RunFrom(route, s, states, steps) && Enabled(states[|steps|], step)
    ensures |longer| == |steps| + 2 && RunFrom(route, s, longer, steps + [step])
    ensures longer[|steps| + 1] == Apply(route, states[|steps|], step)
  {
    longer := states + [Apply(route, states[|steps|], step)];
  }

  /** The calls of one iteration continue a run. */
  lemma CallsContinueRun(route: Route, s0: System, states: seq<System>, steps: seq<Step>, r: nat, f: Faults)
    returns (longer: seq<System>)
    requires |states| == |steps| + 1 && RunFrom(route, s0, states, steps)
    requires Working(states[|steps|], r, Adding) && Possible(f)
    ensures |longer| == |steps + CallsOf(r, f)| + 1 && RunFrom(route, s0, longer, steps + CallsOf(r, f))
    ensures longer[|steps + CallsOf(r, f)|] == AfterCalls(route, states[|steps|], r, f)
  {
    CallsAreEnabled(route, states[|steps|], r, f);
    hide RunFrom, Apply, Enabled;
    longer := states;
    var all := steps + [Add(r, f.addTook, f.addOk)];
    longer := Then(route, s0, longer, steps, Add(r, f.addTook, f.addOk));
    if f.addOk {
      longer := Then(route, s0, longer, all, MarkCompleted(r, f.markTook, f.markOk));
      all := all + [MarkCompleted(r, f.markTook, f.markOk)];
    }
    if !(f.addOk && f.markOk) {
      longer := Then(route, s0, longer, all, MarkFailed(r, f.failTook, f.failOk));
      all := all + [MarkFailed(r, f.failTook, f.failOk)];
    }
    assert all == steps + CallsOf(r, f);
  }

  lemma CallsAreEnabled(route: Route, s: System, r: nat, f: Faults)
    requires Working(s, r, Adding) && Possible(f)
    ensures Enabled(s, Add(r, f.addTook, f.addOk))
    ensures var added := Apply(route, s, Add(r, f.addTook, f.addOk));
            if f.addOk then
              && Enabled(added, MarkCompleted(r, f.markTook, f.markOk))
              && (!f.markOk ==> Enabled(Apply(route, added, MarkCompleted(r, f.markTook, f.markOk)),
                                        MarkFailed(r, f.failTook, f.failOk)))
            else Enabled(added, MarkFailed(r, f.failTook, f.failOk))
  {
  }

  /** The state holds what the fold of the first `n` rows says, and the replica is about to take the next. */
  ghost predicate Mirrors(s: System, r: nat, jobs: seq<Job>, n: nat, e: Effect) {
    && e == Effect(s.rows, s.events, s.acceptedEvents, e.processed, r !in s.replicas)
    && (r in s.replicas ==> s.replicas[r] == Tick(jobs, n, Adding))
  }

  lemma IterationMirrors(route: Route, s: System, r: nat, jobs: seq<Job>, n: nat, e: Effect, f: Faults)
    requires Mirrors(s, r, jobs, n, e) && !e.aborted && n < |jobs| && Possible(f)
    ensures Working(s, r, Adding)
    ensures Mirrors(AfterCalls(route, s, r, f), r, jobs, n + 1, RelayRow(e, jobs[n], f))
  {
    RelayRowIsSystemSteps(route, s, r, f, e.processed);
    hide RelayRow, AfterCalls;
  }

  /** The step is one of the replica's, no call of it fails, and no row is locked by others. */
  predicate IsUndisturbed(step: Step, r: nat) {
    match step
    case Select(q, _, locked) => q == r && locked == {}
    case Add(q, took, ok) => q == r && took && ok
    case MarkCompleted(q, took, ok) => q == r && took && ok
    case _ => false
  }

  ghost predicate AreUndisturbed(steps: seq<Step>, r: nat) {
    forall i | 0 <= i < |steps| :: IsUndisturbed(steps[i], r)
  }

  lemma {:induction false} RowsAreRun(route: Route, s: System, r: nat, jobs: seq<Job>, fs: seq<Faults>, n: nat)
    returns (states: seq<System>, steps: seq<Step>)
    requires r in s.replicas && s.replicas[r] == Tick(jobs, 0, Adding)
    requires |fs| == |jobs| && n <= |jobs| && forall i | 0 <= i < |fs| :: Possible(fs[i])
    ensures |states| == |steps| + 1 && RunFrom(route, s, states, steps)
    ensures Mirrors(states[|steps|], r, jobs, n,
                    RelayRows(Effect(s.rows, s.events, s.acceptedEvents, 0, false), jobs[..n], fs[..n]))
    ensures (forall i | 0 <= i < |fs| :: FaultFree(fs[i])) ==> AreUndisturbed(steps, r)
    decreases n
  {
    if n == 0 {
      states, steps := [s], [];
    } else {
      var e := RelayRows(Effect(s.rows, s.events, s.acceptedEvents, 0, false), jobs[..n - 1], fs[..n - 1]);
      states, steps := RowsAreRun(route, s, r, jobs, fs, n - 1);
      assert jobs[..n][..n - 1] == jobs[..n - 1] && fs[..n][..n - 1] == fs[..n - 1];
      if !e.aborted {
        hide RunFrom, AfterCalls, Mirrors;
        IterationMirrors(route, states[|steps|], r, jobs, n - 1, e, fs[n - 1]);
        states := CallsContinueRun(route, s, states, steps, r, fs[n - 1]);
        steps := steps + CallsOf(r, fs[n - 1]);
      }
    }
  }

  /** A whole tick, from its SELECT on, is a run of the system that ends with the tick's table, queue and acceptances. */
  lemma TickIsRun(route: Route, s: System, r: nat, pending: seq<nat>, locked: set<nat>, fs: seq<Faults>)
    returns (states: seq<System>, steps: seq<Step>)
    requires Enabled(s, Select(r, pending, locked))
    requires |fs| == |pending| && forall i | 0 <= i < |fs| :: Possible(fs[i])
    ensures RunFrom(route, s, states, steps)
    ensures var (e, s') := (RelayRows(Effect(s.rows, s.events, s.acceptedEvents, 0, false), Selected(s.rows, pending), fs),
                            states[|steps|]);
            && s'.rows == e.rows && s'.events == e.retained && s'.acceptedEvents == e.accepted
            && IsIdle(s', r) && (r in s'.replicas <==> !e.aborted)
    ensures locked == {} && (forall i | 0 <= i < |fs| :: FaultFree(fs[i])) ==> AreUndisturbed(steps, r)
  {
    var (step, jobs) := (Select(r, pending, locked), Selected(s.rows, pending));
    var started := Apply(route, s, step);
    states, steps := RowsAreRun(route, started, r, jobs, fs, |jobs|);
    assert jobs[..|jobs|] == jobs && fs[..|jobs|] == fs;
    Prepend(route, s, step, states, steps);
    states, steps := [s] + states, [step] + steps;
  }

  // ----- A fault-free tick by a sole replica -----

  function Ids(s: seq<nat>): set<nat> {
    set id | id in s
  }

  lemma IdsSnoc(s: seq<nat>, id: nat)
    ensures Ids(s + [id]) == Ids(s) + {id}
  {
  }

  function Completing(rows: map<nat, Row>, batch: seq<nat>): map<nat, Row> {
    map id | id in rows :: if id in batch then rows[id].(status := Completed) else rows[id]
  }

  lemma FaultFreeRow(e: Effect, job: Job, f: Faults)
    requires !e.aborted && FaultFree(f) && job.id in e.rows
    ensures var e' := RelayRow(e, job, f);
            && e'.rows == e.rows[job.id := e.rows[job.id].(status := Completed)]
            && !e'.aborted && e'.processed == e.processed + 1
            && e'.retained.Keys == e.retained.Keys + {job.id}
  {
  }

  lemma {:induction false} FaultFreeRows(e: Effect, batch: seq<nat>, fs: seq<Faults>)
    requires !e.aborted && |batch| == |fs| && (forall i | 0 <= i < |fs| :: FaultFree(fs[i]))
    requires forall i | 0 <= i < |batch| :: batch[i] in e.rows
    ensures var e' := RelayRows(e, Selected(e.rows, batch), fs);
            && e'.rows == Completing(e.rows, batch) && !e'.aborted && e'.processed == e.processed + |batch|
            && e'.retained.Keys == e.retained.Keys + Ids(batch)
  {
    if batch == [] {
      assert Selected(e.rows, batch) == [];
    } else {
      var n := |batch| - 1;
      var mid := RelayRows(e, Selected(e.rows, batch[..n]), fs[..n]);
      FaultFreeRows(e, batch[..n], fs[..n]);
      assert Selected(e.rows, batch)[..n] == Selected(e.rows, batch[..n]);
      FaultFreeRow(mid, Job(batch[n], e.rows[batch[n]].content), fs[n]);
      CompletingSnoc(e.rows, batch[..n], batch[n]);
      IdsSnoc(batch[..n], batch[n]);
      assert batch == batch[..n] + [batch[n]];
    }
  }

  lemma CompletingSnoc(rows: map<nat, Row>, batch: seq<nat>, id: nat)
    requires id in rows
    ensures var mid := Completing(rows, batch);
            Completing(rows, batch + [id]) == mid[id := mid[id].(status := Completed)]
  {
  }

  lemma {:induction false} DistinctSize(s: seq<nat>)
    requires Distinct(s)
    ensures |Ids(s)| == |s|
  {
    if s != [] {
      var n := |s| - 1;
      DistinctSize(s[..n]);
      IdsSnoc(s[..n], s[n]);
      assert s == s[..n] + [s[n]] && s[n] !in s[..n];
    }
  }

  /** It completes exactly the oldest min(100, n) of the n pending rows that nothing else locks. */
  lemma FaultFreeTick(e: Effect, batch: seq<nat>, locked: set<nat>, fs: seq<Faults>)
    requires !e.aborted && IsOldestBatch(e.rows, locked, batch)
    requires |fs| == |batch| && forall i | 0 <= i < |fs| :: FaultFree(fs[i])
    ensures var (e', n) := (RelayRows(e, Selected(e.rows, batch), fs), Min(100, |Available(e.rows, locked)|));
            && e'.rows == Completing(e.rows, batch)
            && e'.processed == e.processed + n && !e'.aborted
            && e'.retained.Keys == e.retained.Keys + Ids(batch)
            && |PendingIds(e'.rows)| == |PendingIds(e.rows)| - n
  {
    FaultFreeRows(e, batch, fs);
    CompletingShrinksPending(e.rows, batch);
  }

  lemma CompletingShrinksPending(rows: map<nat, Row>, batch: seq<nat>)
    requires Distinct(batch) && forall i | 0 <= i < |batch| :: batch[i] in PendingIds(rows)
    ensures |PendingIds(Completing(rows, batch))| == |PendingIds(rows)| - |batch|
  {
    var ids := Ids(batch);
    DistinctSize(batch);
    assert PendingIds(Completing(rows, batch)) == PendingIds(rows) - ids;
    assert PendingIds(rows) == (PendingIds(rows) - ids) + ids;
  }

  ghost predicate TickLeads(rows: map<nat, Row>, rows': map<nat, Row>) {
    exists batch: seq<nat> :: IsOldestBatch(rows, {}, batch) && rows' == Completing(rows, batch)
  }

  lemma TickShrinks(rows: map<nat, Row>, rows': map<nat, Row>)
    requires TickLeads(rows, rows')
    ensures |PendingIds(rows')| == Max(0, |PendingIds(rows)| - BATCH_SIZE)
  {
    var batch: seq<nat> :| IsOldestBatch(rows, {}, batch) && rows' == Completing(rows, batch);
    CompletingShrinksPending(rows, batch);
  }

  /** Row states after successive fault-free ticks of the sole replica, with no new rows. */
  ghost predicate Ticks(history: seq<map<nat, Row>>) {
    forall i | 0 < i < |history| :: TickLeads(history[i - 1], history[i])
  }

  /** So k ticks leave n - 100k rows pending, and the table drains in n / 100 ticks, rounded up. */
  lemma {:induction false} Draining(history: seq<map<nat, Row>>, k: nat)
    requires Ticks(history) && k < |history|
    ensures |PendingIds(history[k])| == Max(0, |PendingIds(history[0])| - 100 * k)
  {
    if k > 0 {
      Draining(history, k - 1);
      TickShrinks(history[k - 1], history[k]);
    }
  }
}
