/**
 * Outbox rows, relay replicas, the deduplicating events queue, the event workers and the child
 * queues, as one transition system. A replica or worker can stop between any two awaits, a call
 * can fail before or after it took effect, and finished jobs can be evicted.
 */
module Outbox {
  import opened Wrappers

  const BATCH_SIZE := 100

  datatype Status = Pending | Completed | Failed

  datatype Content = Content(tenantId: string, kind: string, payload: string, metadata: string)

  datatype Row = Row(content: Content, createdAt: int, status: Status)

  datatype Job = Job(id: nat, content: Content)

  datatype Queue = Receipts | Campaigns | PostalExports | Emails | Branding | KeycloakSync | BulkImport | CustomFields

  /** A job of a child queue, named by its deterministic id. */
  datatype Child = Child(queue: Queue, jobId: string)

  /** Only this child queue is built with options that remove finished jobs. */
  predicate RemovesFinishedJobs(q: Queue) {
    q == CustomFields
  }

  /** `routeDomainEvent` and the job id the worker derives; None when it enqueues nothing. */
  type Route = (nat, Content) -> Option<Child>

  datatype Phase = Adding | Marking | MarkingFailed

  /** A running tick: the rows its SELECT returned, how many are done, where the current one is. */
  datatype Tick = Tick(batch: seq<Job>, next: nat, phase: Phase)

  datatype System = System(
    rows: map<nat, Row>,
    replicas: map<nat, Tick>,
    events: map<nat, Content>,     // jobs the events queue still retains
    workers: map<nat, Job>,        // deliveries being processed
    children: set<Child>,          // jobs the child queues still retain
    acceptedEvents: seq<Job>,      // every job the events queue ever accepted
    evictedEvents: seq<nat>,
    acceptedChildren: seq<Child>,
    evictedChildren: seq<Child>)

  /** `took`: the call had its effect. `ok`: the caller learnt so. `locked`: rows that other statements lock. */
  datatype Step =
    | Insert(id: nat, content: Content, createdAt: int)
    | Select(replica: nat, batch: seq<nat>, locked: set<nat>)
    | Add(replica: nat, took: bool, ok: bool)
    | MarkCompleted(replica: nat, took: bool, ok: bool)
    | MarkFailed(replica: nat, took: bool, ok: bool)
    | Crash(replica: nat)
    | Deliver(worker: nat, id: nat)
    | WorkerDies(worker: nat)
    | AddChild(worker: nat, took: bool)
    | EvictEvent(id: nat)
    | EvictChild(child: Child)

  predicate Init(s: System) {
    s == System(map[], map[], map[], map[], {}, [], [], [], [])
  }

  ghost predicate Distinct(s: seq<nat>) {
    forall i, j | 0 <= i < j < |s| :: s[i] != s[j]
  }

  predicate Working(s: System, replica: nat, phase: Phase) {
    replica in s.replicas && s.replicas[replica].phase == phase
    && s.replicas[replica].next < |s.replicas[replica].batch|
  }

  predicate IsIdle(s: System, replica: nat) {
    replica in s.replicas ==> s.replicas[replica].next >= |s.replicas[replica].batch|
  }

  /** The pending rows that a SELECT skipping locked rows can return. */
  function Available(rows: map<nat, Row>, locked: set<nat>): (ids: set<nat>)
    ensures ids <= rows.Keys
  {
    set id | id in rows && rows[id].status == Pending && id !in locked
  }

  /** The batch is in order of creation, and no other candidate is older. */
  ghost predicate AreOldest(rows: map<nat, Row>, ids: set<nat>, batch: seq<nat>)
    requires ids <= rows.Keys && forall i | 0 <= i < |batch| :: batch[i] in ids
  {
    && (forall i, j | 0 <= i < j < |batch| :: rows[batch[i]].createdAt <= rows[batch[j]].createdAt)
    && (forall i, id | 0 <= i < |batch| && id in ids && id !in batch :: rows[batch[i]].createdAt <= rows[id].createdAt)
  }

  /** What `ORDER BY created_at ASC LIMIT 100 FOR UPDATE SKIP LOCKED` returns. */
  ghost predicate IsOldestBatch(rows: map<nat, Row>, locked: set<nat>, batch: seq<nat>) {
    var ids := Available(rows, locked);
    && Distinct(batch) && |batch| == Min(BATCH_SIZE, |ids|)
    && (forall i | 0 <= i < |batch| :: batch[i] in ids)
    && AreOldest(rows, ids, batch)
  }

  ghost predicate Enabled(s: System, step: Step) {
    match step
    case Insert(id, _, _) => id !in s.rows
    case Select(r, batch, locked) => IsIdle(s, r) && IsOldestBatch(s.rows, locked, batch)
    case Add(r, took, ok) => Working(s, r, Adding) && (ok ==> took)
    case MarkCompleted(r, took, ok) => Working(s, r, Marking) && (ok ==> took)
    case MarkFailed(r, took, ok) => Working(s, r, MarkingFailed) && (ok ==> took)
    case Crash(r) => r in s.replicas
    case Deliver(w, id) => w !in s.workers && id in s.events
    case WorkerDies(w) => w in s.workers
    case AddChild(w, took) => w in s.workers
    case EvictEvent(id) => id in s.events
    case EvictChild(child) => child in s.children && RemovesFinishedJobs(child.queue)
  }

  /** The events queue ignores a job whose id it still retains. */
  function Offered(s: System, job: Job): System {
    if job.id in s.events then s
    else s.(events := s.events[job.id := job.content], acceptedEvents := s.acceptedEvents + [job])
  }

  function OfferedChild(s: System, child: Child): System {
    if child in s.children then s
    else s.(children := s.children + {child}, acceptedChildren := s.acceptedChildren + [child])
  }

  function WithStatus(rows: map<nat, Row>, id: nat, status: Status): map<nat, Row> {
    if id in rows then rows[id := rows[id].(status := status)] else rows
  }

  function WithTick(s: System, r: nat, tick: Tick): System {
    s.(replicas := s.replicas[r := tick])
  }

  function Without<K(==), V>(m: map<K, V>, k: K): map<K, V> {
    m - {k}
  }

  function Selected(rows: map<nat, Row>, batch: seq<nat>): seq<Job>
    requires forall i | 0 <= i < |batch| :: batch[i] in rows
  {
    seq(|batch|, i requires 0 <= i < |batch| => Job(batch[i], rows[batch[i]].content))
  }

  function Apply(route: Route, s: System, step: Step): System
    requires Enabled(s, step)
  {
    match step
    case Insert(id, content, createdAt) => s.(rows := s.rows[id := Row(content, createdAt, Pending)])
    case Select(r, batch, _) => WithTick(s, r, Tick(Selected(s.rows, batch), 0, Adding))
    case Add(r, took, ok) =>
      var t := s.replicas[r];
      WithTick(if took then Offered(s, t.batch[t.next]) else s, r, t.(phase := if ok then Marking else MarkingFailed))
    case MarkCompleted(r, took, ok) =>
      var t := s.replicas[r];
      WithTick(if took then s.(rows := WithStatus(s.rows, t.batch[t.next].id, Completed)) else s, r,
               if ok then Tick(t.batch, t.next + 1, Adding) else t.(phase := MarkingFailed))
    case MarkFailed(r, took, ok) =>
      var t := s.replicas[r];
      var s' := if took then s.(rows := WithStatus(s.rows, t.batch[t.next].id, Failed)) else s;
      // A failing UPDATE in the catch block leaves the loop: the tick is over.
      if ok then WithTick(s', r, Tick(t.batch, t.next + 1, Adding)) else s'.(replicas := Without(s'.replicas, r))
    case Crash(r) => s.(replicas := Without(s.replicas, r))
    case Deliver(w, id) => s.(workers := s.workers[w := Job(id, s.events[id])])
    case WorkerDies(w) => s.(workers := Without(s.workers, w))
    case AddChild(w, took) =>
      var job := s.workers[w];
      var child := route(job.id, job.content);
      (if took && child.Some? then OfferedChild(s, child.value) else s).(workers := Without(s.workers, w))
    case EvictEvent(id) => s.(events := Without(s.events, id), evictedEvents := s.evictedEvents + [id])
    case EvictChild(child) => s.(children := s.children - {child}, evictedChildren := s.evictedChildren + [child])
  }

  /** Steps taken from any state. */
  ghost predicate RunFrom(route: Route, s: System, states: seq<System>, steps: seq<Step>) {
    && |states| == |steps| + 1
    && states[0] == s
    && forall i | 0 <= i < |steps| :: Enabled(states[i], steps[i]) && states[i + 1] == Apply(route, states[i], steps[i])
  }

  ghost predicate Run(route: Route, states: seq<System>, steps: seq<Step>) {
    |states| > 0 && Init(states[0]) && RunFrom(route, states[0], states, steps)
  }

  // ----- Counting -----

  function Count<T(==)>(s: seq<T>, x: T): nat {
    if s == [] then 0 else Count(s[..|s| - 1], x) + (if s[|s| - 1] == x then 1 else 0)
  }

  /** How many jobs with this id the events queue accepted. */
  function CountId(s: seq<Job>, id: nat): nat {
    if s == [] then 0 else CountId(s[..|s| - 1], id) + (if s[|s| - 1].id == id then 1 else 0)
  }

  lemma CountSnoc<T>(s: seq<T>, x: T, y: T)
    ensures Count(s + [x], y) == Count(s, y) + (if x == y then 1 else 0)
  {
    assert (s + [x])[..|s|] == s;
  }

  lemma CountIdSnoc(s: seq<Job>, x: Job, id: nat)
    ensures CountId(s + [x], id) == CountId(s, id) + (if x.id == id then 1 else 0)
  {
    assert (s + [x])[..|s|] == s;
  }

  lemma {:induction false} CountZeroIffAbsent<T>(s: seq<T>, x: T)
    ensures Count(s, x) == 0 <==> x !in s
  {
    if s != [] {
      CountZeroIffAbsent(s[..|s| - 1], x);
    }
  }

  // ----- The invariant -----

  /** The copy of a row that a tick, a job or a delivery carries is the row's own content. */
  ghost predicate Genuine(s: System, job: Job) {
    job.id in s.rows && s.rows[job.id].content == job.content
  }

  ghost predicate TickOk(s: System, t: Tick) {
    && |t.batch| <= BATCH_SIZE
    && (forall i | 0 <= i < |t.batch| :: Genuine(s, t.batch[i]))
    && (t.phase == Marking && t.next < |t.batch| ==> t.batch[t.next] in s.acceptedEvents)
  }

  /** Jobs and deliveries carry what was accepted, and what was accepted is a row's content. */
  ghost predicate JobsOk(s: System) {
    && (forall id | id in s.events :: Job(id, s.events[id]) in s.acceptedEvents)
    && (forall w | w in s.workers :: s.workers[w] in s.acceptedEvents)
    && (forall j | j in s.acceptedEvents :: Genuine(s, j))
  }

  ghost predicate CopiesOk(s: System) {
    && (forall r | r in s.replicas :: TickOk(s, s.replicas[r]))
    && JobsOk(s)
  }

  ghost predicate CompletedOk(s: System) {
    forall id | id in s.rows && s.rows[id].status == Completed :: Job(id, s.rows[id].content) in s.acceptedEvents
  }

  ghost predicate EventBalance(s: System, id: nat) {
    CountId(s.acceptedEvents, id) == Count(s.evictedEvents, id) + (if id in s.events then 1 else 0)
  }

  ghost predicate ChildBalance(s: System, c: Child) {
    Count(s.acceptedChildren, c) == Count(s.evictedChildren, c) + (if c in s.children then 1 else 0)
  }

  /** Acceptances and evictions balance for every id of every queue. */
  ghost predicate Balanced(s: System) {
    && (forall id :: EventBalance(s, id))
    && (forall c :: ChildBalance(s, c))
    && (forall c | c in s.evictedChildren :: RemovesFinishedJobs(c.queue))
  }

  ghost predicate Justified(route: Route, s: System, c: Child) {
    exists j :: j in s.acceptedEvents && route(j.id, j.content) == Some(c)
  }

  ghost predicate ChildrenOk(route: Route, s: System) {
    forall c | c in s.acceptedChildren :: Justified(route, s, c)
  }

  ghost predicate Inv(route: Route, s: System) {
    CopiesOk(s) && CompletedOk(s) && Balanced(s) && ChildrenOk(route, s)
  }

  // ----- Every step keeps it -----

  ghost predicate RowKept(before: Row, after: Row) {
    && after.content == before.content
    && after.createdAt == before.createdAt
    && (before.status != Pending ==> after.status != Pending)
  }

  /** Nothing the invariant looks up gets lost between two states. */
  ghost predicate Grows(s: System, s': System) {
    && (forall id | id in s.rows :: id in s'.rows && RowKept(s.rows[id], s'.rows[id]))
    && (forall j | j in s.acceptedEvents :: j in s'.acceptedEvents)
  }

  lemma StepGrows(route: Route, s: System, step: Step)
    requires Enabled(s, step)
    ensures Grows(s, Apply(route, s, step))
  {
  }

  lemma TickStaysOk(s: System, s': System, t: Tick)
    requires TickOk(s, t) && Grows(s, s')
    ensures TickOk(s', t)
  {
    forall i | 0 <= i < |t.batch| ensures Genuine(s', t.batch[i]) {
      assert Genuine(s, t.batch[i]);
    }
  }

  lemma SelectedTickOk(route: Route, s: System, step: Step)
    requires Enabled(s, step) && step.Select?
    ensures TickOk(Apply(route, s, step), Apply(route, s, step).replicas[step.replica])
  {
  }

  lemma StepKeepsTicks(route: Route, s: System, step: Step, r: nat)
    requires CopiesOk(s) && Enabled(s, step) && r in Apply(route, s, step).replicas
    ensures TickOk(Apply(route, s, step), Apply(route, s, step).replicas[r])
  {
    hide IsOldestBatch, Grows;
    StepGrows(route, s, step);
    var s' := Apply(route, s, step);
    if step.Select? && step.replica == r {
      SelectedTickOk(route, s, step);
    } else {
      TickStaysOk(s, s', s.replicas[r]);
      AdvancedTick(route, s, step, r);
    }
  }

  /** How the tick of a replica moves: not at all, to the next row, or to another phase. */
  lemma AdvancedTick(route: Route, s: System, step: Step, r: nat)
    requires Enabled(s, step) && r in s.replicas && r in Apply(route, s, step).replicas
    requires !(step.Select? && step.replica == r)
    ensures var (t, t') := (s.replicas[r], Apply(route, s, step).replicas[r]);
            && t'.batch == t.batch
            && (t'.phase == Marking ==>
                  t' == t || (t.next < |t.batch| && t'.next == t.next && t.batch[t.next].id in Apply(route, s, step).events
                              && step == Add(r, true, true)))
  {
  }

  /** Only a replica's `add` makes the events queue accept a job, and it is the current row's. */
  lemma OnlyAddPublishes(route: Route, s: System, step: Step, j: Job)
    requires Enabled(s, step) && j in Apply(route, s, step).acceptedEvents
    ensures j in s.acceptedEvents
         || (step.Add? && j == s.replicas[step.replica].batch[s.replicas[step.replica].next])
  {
  }

  lemma StepKeepsAccepted(route: Route, s: System, step: Step, j: Job)
    requires CopiesOk(s) && Enabled(s, step) && j in Apply(route, s, step).acceptedEvents
    ensures Genuine(Apply(route, s, step), j)
  {
    StepGrows(route, s, step);
    OnlyAddPublishes(route, s, step, j);
    if j !in s.acceptedEvents {
      assert TickOk(s, s.replicas[step.replica]);
    }
    assert Genuine(s, j);
  }

  lemma StepKeepsDeliverable(route: Route, s: System, step: Step)
    requires JobsOk(s) && Enabled(s, step)
    ensures var s' := Apply(route, s, step);
            && (forall id | id in s'.events :: Job(id, s'.events[id]) in s'.acceptedEvents)
            && (forall w | w in s'.workers :: s'.workers[w] in s'.acceptedEvents)
  {
    StepGrows(route, s, step);
  }

  lemma StepKeepsJobs(route: Route, s: System, step: Step)
    requires CopiesOk(s) && Enabled(s, step)
    ensures JobsOk(Apply(route, s, step))
  {
    StepKeepsDeliverable(route, s, step);
    forall j | j in Apply(route, s, step).acceptedEvents ensures Genuine(Apply(route, s, step), j) {
      StepKeepsAccepted(route, s, step, j);
    }
  }

  lemma StepKeepsCopies(route: Route, s: System, step: Step)
    requires CopiesOk(s) && Enabled(s, step)
    ensures CopiesOk(Apply(route, s, step))
  {
    var s' := Apply(route, s, step);
    StepKeepsJobs(route, s, step);
    forall r | r in s'.replicas ensures TickOk(s', s'.replicas[r]) {
      StepKeepsTicks(route, s, step, r);
    }
  }

  lemma OnlyMarkingCompletes(route: Route, s: System, step: Step, id: nat)
    requires Enabled(s, step) && id in Apply(route, s, step).rows
    requires Apply(route, s, step).rows[id].status == Completed
    ensures id in s.rows
    ensures s.rows[id].status == Completed
         || (step.MarkCompleted? && id == s.replicas[step.replica].batch[s.replicas[step.replica].next].id)
  {
  }

  lemma StepKeepsCompleted(route: Route, s: System, step: Step)
    requires CopiesOk(s) && CompletedOk(s) && Enabled(s, step)
    ensures CompletedOk(Apply(route, s, step))
  {
    StepGrows(route, s, step);
    var s' := Apply(route, s, step);
    forall id | id in s'.rows && s'.rows[id].status == Completed
      ensures Job(id, s'.rows[id].content) in s'.acceptedEvents
    {
      OnlyMarkingCompletes(route, s, step, id);
      assert RowKept(s.rows[id], s'.rows[id]);
      if s.rows[id].status != Completed {
        var t := s.replicas[step.replica];
        assert TickOk(s, t) && Genuine(s, t.batch[t.next]);
      }
    }
  }

  /** A step leaves the events queue alone, or it accepts one job, or it evicts one. */
  ghost predicate EventsMove(s: System, s': System) {
    || (s'.events == s.events && s'.acceptedEvents == s.acceptedEvents && s'.evictedEvents == s.evictedEvents)
    || (exists job: Job :: job.id !in s.events && s'.events == s.events[job.id := job.content]
                           && s'.acceptedEvents == s.acceptedEvents + [job] && s'.evictedEvents == s.evictedEvents)
    || (exists id :: id in s.events && s'.events == Without(s.events, id)
                     && s'.evictedEvents == s.evictedEvents + [id] && s'.acceptedEvents == s.acceptedEvents)
  }

  ghost predicate ChildrenMove(s: System, s': System) {
    || (s'.children == s.children && s'.acceptedChildren == s.acceptedChildren && s'.evictedChildren == s.evictedChildren)
    || (exists c :: c !in s.children && s'.children == s.children + {c}
                    && s'.acceptedChildren == s.acceptedChildren + [c] && s'.evictedChildren == s.evictedChildren)
    || (exists c :: c in s.children && s'.children == s.children - {c} && RemovesFinishedJobs(c.queue)
                    && s'.evictedChildren == s.evictedChildren + [c] && s'.acceptedChildren == s.acceptedChildren)
  }

  lemma StepMoves(route: Route, s: System, step: Step)
    requires Enabled(s, step)
    ensures EventsMove(s, Apply(route, s, step)) && ChildrenMove(s, Apply(route, s, step))
  {
  }

  lemma MoveKeepsEventBalance(s: System, s': System, id: nat)
    requires EventsMove(s, s') && EventBalance(s, id)
    ensures EventBalance(s', id)
  {
    if |s'.acceptedEvents| > |s.acceptedEvents| {
      CountIdSnoc(s.acceptedEvents, s'.acceptedEvents[|s.acceptedEvents|], id);
    } else if |s'.evictedEvents| > |s.evictedEvents| {
      CountSnoc(s.evictedEvents, s'.evictedEvents[|s.evictedEvents|], id);
    }
  }

  lemma MoveKeepsChildBalance(s: System, s': System, c: Child)
    requires ChildrenMove(s, s') && ChildBalance(s, c)
    ensures ChildBalance(s', c)
  {
    if |s'.acceptedChildren| > |s.acceptedChildren| {
      CountSnoc(s.acceptedChildren, s'.acceptedChildren[|s.acceptedChildren|], c);
    } else if |s'.evictedChildren| > |s.evictedChildren| {
      CountSnoc(s.evictedChildren, s'.evictedChildren[|s.evictedChildren|], c);
    }
  }

  lemma StepKeepsBalance(route: Route, s: System, step: Step)
    requires Balanced(s) && Enabled(s, step)
    ensures Balanced(Apply(route, s, step))
  {
    StepMoves(route, s, step);
    MoveKeepsBalance(s, Apply(route, s, step));
  }

  lemma MoveKeepsBalance(s: System, s': System)
    requires Balanced(s) && EventsMove(s, s') && ChildrenMove(s, s')
    ensures Balanced(s')
  {
    forall id ensures EventBalance(s', id) {
      MoveKeepsEventBalance(s, s', id);
    }
    forall c ensures ChildBalance(s', c) {
      MoveKeepsChildBalance(s, s', c);
    }
  }

  lemma StepKeepsChildren(route: Route, s: System, step: Step)
    requires CopiesOk(s) && ChildrenOk(route, s) && Enabled(s, step)
    ensures ChildrenOk(route, Apply(route, s, step))
  {
    StepGrows(route, s, step);
    var s' := Apply(route, s, step);
    forall c | c in s'.acceptedChildren ensures Justified(route, s', c) {
      if c in s.acceptedChildren {
        var j :| j in s.acceptedEvents && route(j.id, j.content) == Some(c);
        assert j in s'.acceptedEvents;
      } else {
        var j := s.workers[step.worker];
        assert j in s'.acceptedEvents && route(j.id, j.content) == Some(c);
      }
    }
  }

  lemma {:induction false} RunKeepsInv(route: Route, states: seq<System>, steps: seq<Step>, i: nat)
    requires Run(route, states, steps) && i < |states|
    ensures Inv(route, states[i])
  {
    if i > 0 {
      RunKeepsInv(route, states, steps, i - 1);
      StepKeepsCopies(route, states[i - 1], steps[i - 1]);
      StepKeepsCompleted(route, states[i - 1], steps[i - 1]);
      StepKeepsBalance(route, states[i - 1], steps[i - 1]);
      StepKeepsChildren(route, states[i - 1], steps[i - 1]);
    }
  }

  // ----- Main results: over every run -----

  /** A child queue that removes nothing accepts each job id at most once, whatever happens. */
  lemma ChildAcceptedAtMostOnce(route: Route, states: seq<System>, steps: seq<Step>, i: nat, c: Child)
    requires Run(route, states, steps) && i < |states| && c.queue != CustomFields
    ensures Count(states[i].acceptedChildren, c) <= 1
  {
    RunKeepsInv(route, states, steps, i);
    CountZeroIffAbsent(states[i].evictedChildren, c);
    assert ChildBalance(states[i], c);
  }

  /** At most one receipt per donation, and only for an event the relay really published. */
  lemma AtMostOneReceiptPerDonation(route: Route, states: seq<System>, steps: seq<Step>, i: nat, donationId: string)
    requires Run(route, states, steps) && i < |states|
    ensures var c := Child(Receipts, "receipt-" + donationId);
            && Count(states[i].acceptedChildren, c) <= 1
            && (c in states[i].acceptedChildren ==>
                  exists id :: id in states[i].rows && route(id, states[i].rows[id].content) == Some(c))
  {
    var c := Child(Receipts, "receipt-" + donationId);
    ChildAcceptedAtMostOnce(route, states, steps, i, c);
    RunKeepsInv(route, states, steps, i);
    if c in states[i].acceptedChildren {
      assert Justified(route, states[i], c);
      var j :| j in states[i].acceptedEvents && route(j.id, j.content) == Some(c);
      assert Genuine(states[i], j);
    }
  }

  /** Acceptances of one event id exceed its evictions by one while it is retained, else by none. */
  lemma EventAcceptancesBalance(route: Route, states: seq<System>, steps: seq<Step>, i: nat, id: nat)
    requires Run(route, states, steps) && i < |states|
    ensures CountId(states[i].acceptedEvents, id) ==
            Count(states[i].evictedEvents, id) + (if id in states[i].events then 1 else 0)
  {
    RunKeepsInv(route, states, steps, i);
    assert EventBalance(states[i], id);
  }

  /** A completed row was published: a job with its id and content had been accepted. */
  lemma CompletedWasPublished(route: Route, states: seq<System>, steps: seq<Step>, i: nat, id: nat)
    requires Run(route, states, steps) && i < |states|
    requires id in states[i].rows && states[i].rows[id].status == Completed
    ensures Job(id, states[i].rows[id].content) in states[i].acceptedEvents
  {
    RunKeepsInv(route, states, steps, i);
  }

  /** No row is lost or rewritten, and none returns to pending. */
  lemma {:induction false} RowsLast(route: Route, states: seq<System>, steps: seq<Step>, i: nat, j: nat, id: nat)
    requires Run(route, states, steps) && i <= j < |states| && id in states[i].rows
    ensures id in states[j].rows && states[j].rows[id].content == states[i].rows[id].content
    ensures states[j].rows[id].createdAt == states[i].rows[id].createdAt
    ensures states[i].rows[id].status != Pending ==> states[j].rows[id].status != Pending
    decreases j - i
  {
    if i < j {
      RowsLast(route, states, steps, i, j - 1, id);
      StepGrows(route, states[j - 1], steps[j - 1]);
      assert RowKept(states[j - 1].rows[id], states[j].rows[id]);
    }
  }

  // ----- What single steps may and may not do -----

  /** A SELECT takes up to 100 pending rows that nothing locks, and no replica leaves rows of its last tick behind. */
  lemma SelectTakesFreeRows(s: System, r: nat, batch: seq<nat>, locked: set<nat>)
    requires Enabled(s, Select(r, batch, locked))
    ensures |batch| <= 100
    ensures forall id | id in batch :: id in s.rows && s.rows[id].status == Pending && id !in locked
    ensures r in s.replicas ==> s.replicas[r].next >= |s.replicas[r].batch|
  {
  }

  /** A call without effect changes no row and no queue; nor does a death, and a dead worker can be given any event again. */
  lemma LostCallsLoseNothing(route: Route, s: System, step: Step)
    requires Enabled(s, step)
    requires match step
             case Add(_, took, _) => !took
             case MarkCompleted(_, took, _) => !took
             case MarkFailed(_, took, _) => !took
             case AddChild(_, took) => !took
             case Crash(_) => true
             case WorkerDies(_) => true
             case _ => false
    ensures var s' := Apply(route, s, step);
            && s'.rows == s.rows && s'.events == s.events && s'.children == s.children
            && s'.acceptedEvents == s.acceptedEvents && s'.acceptedChildren == s.acceptedChildren
            && (step.AddChild? || step.WorkerDies? ==> forall id | id in s.events :: Enabled(s', Deliver(step.worker, id)))
  {
  }

  // ----- When a completed row stays completed -----

  predicate HeldAt(t: Tick, k: nat, id: nat) {
    t.next <= k < |t.batch| && t.batch[k].id == id
  }

  /** Some running tick still has the row ahead of it or in hand. */
  ghost predicate Held(s: System, id: nat) {
    exists r, k | r in s.replicas :: HeldAt(s.replicas[r], k, id)
  }

  predicate IsCompleted(s: System, id: nat) {
    id in s.rows && s.rows[id].status == Completed
  }

  ghost predicate StaysCompleted(route: Route, s: System, id: nat) {
    forall states, steps | RunFrom(route, s, states, steps) :: IsCompleted(states[|steps|], id)
  }

  /** No step lets a tick take up a completed row, and only a tick that holds a row can fail it. */
  lemma StepKeepsUnheld(route: Route, s: System, step: Step, id: nat)
    requires Enabled(s, step) && IsCompleted(s, id) && !Held(s, id)
    ensures IsCompleted(Apply(route, s, step), id) && !Held(Apply(route, s, step), id)
  {
    var s' := Apply(route, s, step);
    forall r, k | r in s'.replicas ensures !HeldAt(s'.replicas[r], k, id) {
      if r in s.replicas {
        assert !HeldAt(s.replicas[r], k, id);
      }
    }
    if step.MarkFailed? {
      var t := s.replicas[step.replica];
      assert !HeldAt(t, t.next, id);
    }
  }

  lemma {:induction false} UnheldStays(route: Route, s: System, id: nat, states: seq<System>, steps: seq<Step>, i: nat)
    requires RunFrom(route, s, states, steps) && i <= |steps| && IsCompleted(s, id) && !Held(s, id)
    ensures IsCompleted(states[i], id) && !Held(states[i], id)
  {
    if i > 0 {
      UnheldStays(route, s, id, states, steps, i - 1);
      StepKeepsUnheld(route, states[i - 1], steps[i - 1], id);
    }
  }

  lemma Prepend(route: Route, s: System, step: Step, states: seq<System>, steps: seq<Step>)
    requires Enabled(s, step) && RunFrom(route, Apply(route, s, step), states, steps)
    ensures RunFrom(route, s, [s] + states, [step] + steps)
    ensures ([s] + states)[|[step] + steps|] == states[|steps|]
  {
  }

  lemma Join(route: Route, s: System, states: seq<System>, steps: seq<Step>, later: seq<System>, laterSteps: seq<Step>)
    requires RunFrom(route, s, states, steps) && RunFrom(route, states[|steps|], later, laterSteps)
    ensures |later| == |laterSteps| + 1 && |states + later[1..]| == |steps + laterSteps| + 1
    ensures RunFrom(route, s, states + later[1..], steps + laterSteps)
    ensures (states + later[1..])[|steps + laterSteps|] == later[|laterSteps|]
  {
    var (all, allSteps) := (states + later[1..], steps + laterSteps);
    forall i | 0 <= i < |allSteps| ensures Enabled(all[i], allSteps[i]) && all[i + 1] == Apply(route, all[i], allSteps[i]) {
      if i >= |steps| {
        assert all[i] == later[i - |steps|] && all[i + 1] == later[i + 1 - |steps|];
      }
    }
  }

  function Rank(phase: Phase): nat {
    match phase
    case Adding => 2
    case Marking => 1
    case MarkingFailed => 0
  }

  /** The next step on the way to failing the row at `k`: finish the rows before it, then fail. */
  function TowardsFailure(t: Tick, r: nat, k: nat): Step {
    var reached := t.next == k;
    match t.phase
    case Adding => Add(r, !reached, !reached)
    case Marking => MarkCompleted(r, !reached, !reached)
    case MarkingFailed => MarkFailed(r, true, true)
  }

  /** It brings the tick nearer to the row, or fails the row. */
  lemma StepTowardsFailure(route: Route, s: System, r: nat, k: nat, id: nat)
    requires r in s.replicas && HeldAt(s.replicas[r], k, id) && id in s.rows
    ensures var (t, step) := (s.replicas[r], TowardsFailure(s.replicas[r], r, k));
            && Enabled(s, step)
            && var s' := Apply(route, s, step);
            id in s'.rows
            && (if t.phase == MarkingFailed && t.next == k then s'.rows[id].status == Failed
                else r in s'.replicas && HeldAt(s'.replicas[r], k, id)
                     && 3 * (k - s'.replicas[r].next) + Rank(s'.replicas[r].phase) < 3 * (k - t.next) + Rank(t.phase))
  {
  }

  /** A tick that holds the row can still fail it, whatever its status. */
  lemma {:induction false} HeldCanFail(route: Route, s: System, r: nat, k: nat, id: nat)
    returns (states: seq<System>, steps: seq<Step>)
    requires r in s.replicas && HeldAt(s.replicas[r], k, id) && id in s.rows
    ensures RunFrom(route, s, states, steps)
    ensures id in states[|steps|].rows && states[|steps|].rows[id].status == Failed
    decreases 3 * (k - s.replicas[r].next) + Rank(s.replicas[r].phase)
  {
    var t := s.replicas[r];
    var step := TowardsFailure(t, r, k);
    StepTowardsFailure(route, s, r, k, id);
    var s' := Apply(route, s, step);
    if t.phase == MarkingFailed && t.next == k {
      states, steps := [s'], [];
    } else {
      states, steps := HeldCanFail(route, s', r, k, id);
    }
    Prepend(route, s, step, states, steps);
    states, steps := [s] + states, [step] + steps;
  }

  /** A completed row stays completed, whatever happens next, exactly while no running tick holds it. */
  lemma StaysCompletedIffUnheld(route: Route, s: System, id: nat)
    requires IsCompleted(s, id)
    ensures StaysCompleted(route, s, id) <==> !Held(s, id)
  {
    if Held(s, id) {
      var r, k :| r in s.replicas && HeldAt(s.replicas[r], k, id);
      var states, steps := HeldCanFail(route, s, r, k, id);
      assert !IsCompleted(states[|steps|], id);
    } else {
      forall states, steps | RunFrom(route, s, states, steps) ensures IsCompleted(states[|steps|], id) {
        UnheldStays(route, s, id, states, steps, |steps|);
      }
    }
  }

  // ----- When an event can be accepted again -----

  /** The tick will still offer the row at `k` to the queue. */
  predicate Offers(t: Tick, k: nat, id: nat) {
    HeldAt(t, k, id) && (k == t.next ==> t.phase == Adding)
  }

  /** The row is pending, so that a new tick can select it, or a running tick will still offer it. */
  ghost predicate Offerable(s: System, id: nat) {
    (id in s.rows && s.rows[id].status == Pending) || BeingOffered(s, id)
  }

  ghost predicate BeingOffered(s: System, id: nat) {
    exists r, k | r in s.replicas :: Offers(s.replicas[r], k, id)
  }

  ghost predicate CanBeAcceptedMore(route: Route, s: System, id: nat) {
    exists states: seq<System>, steps: seq<Step> :: RunFrom(route, s, states, steps)
      && CountId(states[|steps|].acceptedEvents, id) > CountId(s.acceptedEvents, id)
  }

  lemma StepAccepts(route: Route, s: System, step: Step)
    requires Enabled(s, step)
    ensures var (before, after) := (s.acceptedEvents, Apply(route, s, step).acceptedEvents);
            after == before || exists job :: after == before + [job] && BeingOffered(s, job.id)
  {
    if step.Add? && step.took {
      var t := s.replicas[step.replica];
      assert Offers(t, t.next, t.batch[t.next].id);
    }
  }

  lemma StepKeepsCount(route: Route, s: System, step: Step, id: nat)
    requires Enabled(s, step)
    ensures CountId(Apply(route, s, step).acceptedEvents, id) >= CountId(s.acceptedEvents, id)
    ensures !Offerable(s, id) ==> CountId(Apply(route, s, step).acceptedEvents, id) == CountId(s.acceptedEvents, id)
  {
    StepAccepts(route, s, step);
    var (before, after) := (s.acceptedEvents, Apply(route, s, step).acceptedEvents);
    if after != before {
      var job :| after == before + [job] && BeingOffered(s, job.id);
      CountIdSnoc(before, job, id);
    }
  }

  /** No step makes a row offerable that is stored and is not. */
  lemma StepKeepsUnofferable(route: Route, s: System, step: Step, id: nat)
    requires Enabled(s, step) && id in s.rows && !Offerable(s, id)
    ensures id in Apply(route, s, step).rows && !Offerable(Apply(route, s, step), id)
  {
    var s' := Apply(route, s, step);
    forall r, k | r in s'.replicas ensures !Offers(s'.replicas[r], k, id) {
      if r in s.replicas {
        assert !Offers(s.replicas[r], k, id);
      }
    }
    assert s'.rows[id].status != Pending;
  }

  lemma {:induction false} UnofferableStays(route: Route, s: System, id: nat, states: seq<System>, steps: seq<Step>, i: nat)
    requires RunFrom(route, s, states, steps) && i <= |steps| && id in s.rows && !Offerable(s, id)
    ensures id in states[i].rows && !Offerable(states[i], id)
    ensures CountId(states[i].acceptedEvents, id) == CountId(s.acceptedEvents, id)
  {
    if i > 0 {
      UnofferableStays(route, s, id, states, steps, i - 1);
      StepKeepsUnofferable(route, states[i - 1], steps[i - 1], id);
      StepKeepsCount(route, states[i - 1], steps[i - 1], id);
    }
  }

  /** Evict the event if it is retained, then let the tick offer it. */
  lemma OfferedIsAccepted(route: Route, s: System, r: nat, id: nat) returns (states: seq<System>, steps: seq<Step>)
    requires r in s.replicas && Offers(s.replicas[r], s.replicas[r].next, id)
    ensures RunFrom(route, s, states, steps)
    ensures CountId(states[|steps|].acceptedEvents, id) > CountId(s.acceptedEvents, id)
  {
    var (t, add) := (s.replicas[r], Add(r, true, true));
    var free := if id in s.events then Apply(route, s, EvictEvent(id)) else s;
    CountIdSnoc(s.acceptedEvents, t.batch[t.next], id);
    assert Apply(route, free, add).acceptedEvents == s.acceptedEvents + [t.batch[t.next]];
    if id in s.events {
      states, steps := [s, free, Apply(route, free, add)], [EvictEvent(id), add];
    } else {
      states, steps := [s, Apply(route, s, add)], [add];
    }
  }

  /** The next step of a tick none of whose calls fails. */
  function Onwards(t: Tick, r: nat): Step {
    match t.phase
    case Adding => Add(r, true, true)
    case Marking => MarkCompleted(r, true, true)
    case MarkingFailed => MarkFailed(r, true, true)
  }

  lemma StepOnwards(route: Route, s: System, r: nat, k: nat, id: nat)
    requires r in s.replicas && Offers(s.replicas[r], k, id) && s.replicas[r].next < k
    ensures var (t, step) := (s.replicas[r], Onwards(s.replicas[r], r));
            && Enabled(s, step)
            && var s' := Apply(route, s, step);
            r in s'.replicas && Offers(s'.replicas[r], k, id)
            && 3 * (k - s'.replicas[r].next) + Rank(s'.replicas[r].phase) < 3 * (k - t.next) + Rank(t.phase)
  {
  }

  lemma {:induction false} OffersLeadToAcceptance(route: Route, s: System, r: nat, k: nat, id: nat)
    returns (states: seq<System>, steps: seq<Step>)
    requires r in s.replicas && Offers(s.replicas[r], k, id)
    ensures RunFrom(route, s, states, steps)
    ensures CountId(states[|steps|].acceptedEvents, id) > CountId(s.acceptedEvents, id)
    decreases 3 * (k - s.replicas[r].next) + Rank(s.replicas[r].phase)
  {
    var t := s.replicas[r];
    if t.next == k {
      states, steps := OfferedIsAccepted(route, s, r, id);
    } else {
      var step := Onwards(t, r);
      StepOnwards(route, s, r, k, id);
      StepKeepsCount(route, s, step, id);
      states, steps := OffersLeadToAcceptance(route, Apply(route, s, step), r, k, id);
      Prepend(route, s, step, states, steps);
      states, steps := [s] + states, [step] + steps;
    }
  }

  // ----- What the system does not promise -----

  lemma Extend(route: Route, states: seq<System>, steps: seq<Step>, step: Step, after: System)
    requires Run(route, states, steps) && Enabled(states[|states| - 1], step)
    requires after == Apply(route, states[|states| - 1], step)
    ensures Run(route, states + [after], steps + [step])
  {
  }

  function Holding(content: Content): Tick {
    Tick([Job(0, content)], 0, Adding)
  }

  /** One pending row that two replicas hold in their batches. */
  function Contended(content: Content): System {
    System(map[0 := Row(content, 0, Pending)], map[1 := Holding(content), 2 := Holding(content)],
           map[], map[], {}, [], [], [], [])
  }

  lemma ReachContended(route: Route, content: Content) returns (states: seq<System>, steps: seq<Step>)
    ensures Run(route, states, steps) && states[|states| - 1] == Contended(content)
  {
    var s0 := System(map[], map[], map[], map[], {}, [], [], [], []);
    var s3 := Contended(content);
    var s2 := s3.(replicas := map[1 := Holding(content)]);
    var s1 := s3.(replicas := map[]);
    assert Selected(s1.rows, [0]) == Holding(content).batch;
    assert Available(s1.rows, {}) == {0};
    states, steps := [s0], [];
    Extend(route, states, steps, Insert(0, content, 0), s1);
    states, steps := states + [s1], steps + [Insert(0, content, 0)];
    Extend(route, states, steps, Select(1, [0], {}), s2);
    states, steps := states + [s2], steps + [Select(1, [0], {})];
    Extend(route, states, steps, Select(2, [0], {}), s3);
    states, steps := states + [s3], steps + [Select(2, [0], {})];
  }

  lemma ExtendContended(route: Route, content: Content, first: Step, second: Step)
    returns (states: seq<System>, steps: seq<Step>)
    requires Enabled(Contended(content), first) && Enabled(Apply(route, Contended(content), first), second)
    ensures Run(route, states, steps) && |states| >= 2
    ensures states[|states| - 1] == Apply(route, Apply(route, Contended(content), first), second)
  {
    hide Run, Enabled, Apply, Contended;
    states, steps := ReachContended(route, content);
    var s1 := Apply(route, Contended(content), first);
    var s2 := Apply(route, s1, second);
    Extend(route, states, steps, first, s1);
    Extend(route, states + [s1], steps + [first], second, s2);
    states, steps := states + [s1] + [s2], steps + [first] + [second];
  }

  /** The first replica has published the row and marked it. */
  function Marked(route: Route, content: Content): (s: System)
    ensures s.rows == map[0 := Row(content, 0, Completed)] && 2 in s.replicas && s.replicas[2] == Holding(content)
  {
    Apply(route, Apply(route, Contended(content), Add(1, true, true)), MarkCompleted(1, true, true))
  }

  /** So a late replica can put `failed` over another one's `completed`, from the empty system on. */
  lemma CompletedCanBecomeFailed(route: Route, content: Content)
    returns (states: seq<System>, steps: seq<Step>, i: nat)
    ensures Run(route, states, steps) && i < |states|
    ensures 0 in states[i].rows && states[i].rows[0].status == Completed
    ensures 0 in states[|states| - 1].rows && states[|states| - 1].rows[0].status == Failed
  {
    states, steps := ExtendContended(route, content, Add(1, true, true), MarkCompleted(1, true, true));
    i := |steps|;
    var s := Marked(route, content);
    assert HeldAt(s.replicas[2], 0, 0);
    var later, laterSteps := HeldCanFail(route, s, 2, 0, 0);
    Join(route, states[0], states, steps, later, laterSteps);
    states, steps := states + later[1..], steps + laterSteps;
  }

  /** After eviction a late replica publishes the same row again. */
  lemma EvictedEventCanBeAcceptedAgain(route: Route, content: Content)
    returns (states: seq<System>, steps: seq<Step>)
    ensures Run(route, states, steps) && CountId(states[|states| - 1].acceptedEvents, 0) == 2
  {
    states, steps := ExtendContended(route, content, Add(1, true, true), EvictEvent(0));
    var s := states[|states| - 1];
    assert s.acceptedEvents == [Job(0, content)] && 0 !in s.events && s.replicas[2] == Holding(content);
    var again := Apply(route, s, Add(2, true, true));
    LateAcceptance(route, s, content);
    hide Run, Enabled, Apply;
    Extend(route, states, steps, Add(2, true, true), again);
    states, steps := states + [again], steps + [Add(2, true, true)];
  }

  lemma LateAcceptance(route: Route, s: System, content: Content)
    requires s.acceptedEvents == [Job(0, content)] && 0 !in s.events && 2 in s.replicas && s.replicas[2] == Holding(content)
    ensures Enabled(s, Add(2, true, true)) && CountId(Apply(route, s, Add(2, true, true)).acceptedEvents, 0) == 2
  {
    var job := Job(0, content);
    assert Apply(route, s, Add(2, true, true)).acceptedEvents == [job] + [job];
    CountIdSnoc([job], job, 0);
    assert CountId([job][..0], 0) == 0;
  }
}
