/**
 * Every interleaving of requests that carry one idempotency key. A request suspends at each store
 * call and while its handler runs; entries can expire, processes can stop and calls can fail.
 */
module IdempotencyRuns {
  import opened Wrappers
  import opened Idempotency

  /** `keyed`: `request.idempotencyCacheKey` is set when `onSend` runs. */
  datatype Phase =
    | Arrived
    | Looking
    | Dropping
    | Handling
    | Answering(reply: Reply, keyed: bool)
    | Done(reply: Reply)

  datatype Event = HandlerRan(id: nat) | DeletedByOnSend(status: int) | Expired | Dropped | DeletedByDrop

  datatype System = System(entry: Option<Entry>, requests: map<nat, Phase>, log: seq<Event>)

  /**
   * `guardPasses`: the route's own guards let the handler run. `took`: a failing call had its effect.
   * `Corrupt` is a foreign write of text the plugin cannot parse.
   */
  datatype Step =
    | Arrive(id: nat, allowed: bool)
    | SetNx(id: nat, guardPasses: bool)
    | SetNxFails(id: nat, took: bool)
    | Get(id: nat)
    | GetFails(id: nat)
    | Drop(id: nat, guardPasses: bool)
    | DropFails(id: nat, took: bool)
    | HandlerReplies(id: nat, reply: Reply)
    | Send(id: nat)
    | SendFails(id: nat, took: bool)
    | Crash(id: nat)
    | Expire
    | Corrupt

  const ERROR := Reply(500, "Internal Server Error", map[])

  predicate Init(s: System) {
    s == System(None, map[], [])
  }

  predicate In(s: System, id: nat, p: Phase) {
    id in s.requests && s.requests[id] == p
  }

  predicate Enabled(s: System, step: Step) {
    match step
    case Arrive(id, _) => id !in s.requests
    case SetNx(id, _) => In(s, id, Arrived)
    case SetNxFails(id, _) => In(s, id, Arrived)
    case Get(id) => In(s, id, Looking)
    case GetFails(id) => In(s, id, Looking)
    case Drop(id, _) => In(s, id, Dropping)
    case DropFails(id, _) => In(s, id, Dropping)
    case HandlerReplies(id, _) => In(s, id, Handling)
    case Send(id) => id in s.requests && s.requests[id].Answering?
    case SendFails(id, _) => id in s.requests && s.requests[id].Answering?
    case Crash(id) => id in s.requests
    case Expire => s.entry.Some?
    case Corrupt => true
  }

  function Moved(s: System, id: nat, p: Phase): System {
    s.(requests := s.requests[id := p])
  }

  /** The request reaches the route: its handler runs, or a guard answers for it. */
  function ToHandler(s: System, id: nat, guardPasses: bool): System {
    if guardPasses then Moved(s, id, Handling).(log := s.log + [HandlerRan(id)])
    else Moved(s, id, Answering(FORBIDDEN, true))
  }

  function Deleted(s: System, e: Event): System {
    s.(entry := None, log := s.log + (if s.entry.Some? then [e] else []))
  }

  /** The store call of `onSend`. */
  function Stored(s: System, reply: Reply, keyed: bool): System {
    if !keyed then s
    else if Is2xx(reply.status) then s.(entry := Some(Captured(reply)))
    else Deleted(s, DeletedByOnSend(reply.status))
  }

  function Apply(s: System, step: Step): System
    requires Enabled(s, step)
  {
    match step
    case Arrive(id, allowed) => Moved(s, id, if allowed then Arrived else Answering(FORBIDDEN, false))
    case SetNx(id, guardPasses) =>
      if s.entry.None? then ToHandler(s.(entry := Some(Pending)), id, guardPasses) else Moved(s, id, Looking)
    case SetNxFails(id, took) =>
      Moved(if took && s.entry.None? then s.(entry := Some(Pending)) else s, id, Answering(ERROR, true))
    case Get(id) =>
      if s.entry.None? || s.entry.value == Pending then Moved(s, id, Answering(CONFLICT, true))
      else if s.entry.value == Garbage then Moved(s, id, Dropping)
      else Moved(s, id, Answering(Replay(s.entry.value), false))
    case GetFails(id) => Moved(s, id, Answering(ERROR, true))
    case Drop(id, guardPasses) =>
      var s' := Deleted(s, DeletedByDrop);
      ToHandler(s'.(log := s'.log + [Dropped]), id, guardPasses)
    case DropFails(id, took) => Moved(if took then Deleted(s, DeletedByDrop) else s, id, Answering(ERROR, true))
    case HandlerReplies(id, reply) => Moved(s, id, Answering(reply, true))
    case Send(id) =>
      var p := s.requests[id];
      Moved(Stored(s, p.reply, p.keyed), id, Done(p.reply))
    case SendFails(id, took) =>
      var p := s.requests[id];
      Moved(if took then Stored(s, p.reply, p.keyed) else s, id, Done(p.reply))
    case Crash(id) => s.(requests := s.requests - {id})
    case Expire => Deleted(s, Expired)
    case Corrupt => s.(entry := Some(Garbage))
  }

  ghost predicate Run(states: seq<System>, steps: seq<Step>) {
    && |states| == |steps| + 1
    && Init(states[0])
    && forall i | 0 <= i < |steps| :: Enabled(states[i], steps[i]) && states[i + 1] == Apply(states[i], steps[i])
  }

  // ----- The steps, against the hooks they come from -----

  predicate Leads(s: System, step: Step, s': System) {
    Enabled(s, step) && s' == Apply(s, step)
  }

  /** The store as the hooks see it. */
  function EntriesOf(key: string, s: System): map<string, Entry> {
    if s.entry.None? then map[] else map[key := s.entry.value]
  }

  /** The request is over with what the hooks answer, and the store is as they leave it. */
  ghost predicate EndsAs(before: System, after: System, id: nat, key: string, served: Served) {
    && In(after, id, Done(served.reply)) && EntriesOf(key, after) == served.entries
    && (exists more :: after.log == before.log + more && (HandlerRan(id) in more <==> served.handled))
    && forall other | other in before.requests :: other in after.requests && after.requests[other] == before.requests[other]
  }

  /** A refused caller's request: its two steps end as the hooks do. */
  lemma RefusedRequestIsServe(s: System, id: nat, key: string, role: Role, minRole: MinRole, handlerReply: Reply)
    returns (s1: System, s2: System)
    requires id !in s.requests && !Admits(minRole, role)
    ensures Leads(s, Arrive(id, false), s1) && Leads(s1, Send(id), s2)
    ensures EndsAs(s, s2, id, key, Serve(EntriesOf(key, s), key, role, minRole, handlerReply))
  {
    s1 := Apply(s, Arrive(id, false));
    s2 := Apply(s1, Send(id));
    assert s2.log == s.log + [];
  }

  lemma HandledServe(s: System, key: string, role: Role, minRole: MinRole, handlerReply: Reply)
    requires Admits(minRole, role) && (s.entry.None? || s.entry.value == Garbage)
    ensures Serve(EntriesOf(key, s), key, role, minRole, handlerReply)
         == Served(if Is2xx(handlerReply.status) then map[key := Captured(handlerReply)] else map[], handlerReply, true)
  {
    hide Captured, Is2xx;
  }

  /** From the handler's start on: its reply is stored or frees the key. */
  lemma HandlerEnds(s: System, id: nat, reply: Reply) returns (s1: System, s2: System, more: seq<Event>)
    requires In(s, id, Handling)
    ensures Leads(s, HandlerReplies(id, reply), s1) && Leads(s1, Send(id), s2)
    ensures In(s2, id, Done(reply)) && s2.requests == s.requests[id := Done(reply)]
    ensures s2.entry == (if Is2xx(reply.status) then Some(Captured(reply)) else None)
    ensures s2.log == s.log + more && HandlerRan(id) !in more
  {
    hide Captured;
    s1 := Apply(s, HandlerReplies(id, reply));
    s2 := Apply(s1, Send(id));
    more := if Is2xx(reply.status) || s.entry.None? then [] else [DeletedByOnSend(reply.status)];
  }

  lemma EndsHandled(before: System, after: System, id: nat, key: string, reply: Reply, more: seq<Event>)
    requires id !in before.requests && after.requests == before.requests[id := Done(reply)]
    requires after.entry == if Is2xx(reply.status) then Some(Captured(reply)) else None
    requires after.log == before.log + more && HandlerRan(id) in more
    ensures EndsAs(before, after, id, key,
                   Served(if Is2xx(reply.status) then map[key := Captured(reply)] else map[], reply, true))
  {
    hide Captured, Is2xx;
  }

  lemma HandlerInMore(log: seq<Event>, first: seq<Event>, more: seq<Event>, id: nat)
    requires HandlerRan(id) in first
    ensures log + first + more == log + (first + more) && HandlerRan(id) in first + more
  {
  }

  /** A new key: the handler runs and its reply is stored, or the sentinel goes again. */
  lemma NewRequestIsServe(s: System, id: nat, key: string, role: Role, minRole: MinRole, handlerReply: Reply)
    returns (s1: System, s2: System, s3: System, s4: System)
    requires id !in s.requests && Admits(minRole, role) && s.entry.None?
    ensures Leads(s, Arrive(id, true), s1) && Leads(s1, SetNx(id, true), s2)
    ensures Leads(s2, HandlerReplies(id, handlerReply), s3) && Leads(s3, Send(id), s4)
    ensures EndsAs(s, s4, id, key, Serve(EntriesOf(key, s), key, role, minRole, handlerReply))
  {
    s1 := Apply(s, Arrive(id, true));
    s2 := Apply(s1, SetNx(id, true));
    var more;
    s3, s4, more := HandlerEnds(s2, id, handlerReply);
    HandledServe(s, key, role, minRole, handlerReply);
    hide Serve, Admits, Captured, Apply, Enabled, Is2xx, EndsAs;
    HandlerInMore(s.log, [HandlerRan(id)], more, id);
    EndsHandled(s, s4, id, key, handlerReply, [HandlerRan(id)] + more);
  }

  /** A key whose sentinel or stored reply is found: conflict or replay. */
  lemma RepeatedRequestIsServe(s: System, id: nat, key: string, role: Role, minRole: MinRole, handlerReply: Reply)
    returns (s1: System, s2: System, s3: System, s4: System)
    requires id !in s.requests && Admits(minRole, role) && s.entry.Some? && s.entry.value != Garbage
    ensures Leads(s, Arrive(id, true), s1) && Leads(s1, SetNx(id, true), s2)
    ensures Leads(s2, Get(id), s3) && Leads(s3, Send(id), s4)
    ensures EndsAs(s, s4, id, key, Serve(EntriesOf(key, s), key, role, minRole, handlerReply))
  {
    hide Admits, Captured, Replay;
    s1 := Apply(s, Arrive(id, true));
    s2 := Apply(s1, SetNx(id, true));
    s3 := Apply(s2, Get(id));
    s4 := Apply(s3, Send(id));
    var more := if s.entry.value == Pending then [DeletedByOnSend(409)] else [];
    assert s4.log == s.log + more;
  }

  /** A key with text that does not parse: it is dropped and the handler runs. */
  lemma MalformedRequestIsServe(s: System, id: nat, key: string, role: Role, minRole: MinRole, handlerReply: Reply)
    returns (s1: System, s2: System, s3: System, s4: System, s5: System, s6: System)
    requires id !in s.requests && Admits(minRole, role) && s.entry == Some(Garbage)
    ensures Leads(s, Arrive(id, true), s1) && Leads(s1, SetNx(id, true), s2) && Leads(s2, Get(id), s3)
    ensures Leads(s3, Drop(id, true), s4) && Leads(s4, HandlerReplies(id, handlerReply), s5) && Leads(s5, Send(id), s6)
    ensures EndsAs(s, s6, id, key, Serve(EntriesOf(key, s), key, role, minRole, handlerReply))
  {
    s1, s2, s3, s4 := MalformedIsDropped(s, id);
    var more;
    s5, s6, more := HandlerEnds(s4, id, handlerReply);
    HandledServe(s, key, role, minRole, handlerReply);
    hide Serve, Admits, Captured, Apply, Enabled, Is2xx, Leads, EndsAs;
    HandlerInMore(s.log, [DeletedByDrop, Dropped, HandlerRan(id)], more, id);
    EndsHandled(s, s6, id, key, handlerReply, [DeletedByDrop, Dropped, HandlerRan(id)] + more);
  }

  lemma MalformedIsDropped(s: System, id: nat) returns (s1: System, s2: System, s3: System, s4: System)
    requires id !in s.requests && s.entry == Some(Garbage)
    ensures Leads(s, Arrive(id, true), s1) && Leads(s1, SetNx(id, true), s2)
    ensures Leads(s2, Get(id), s3) && Leads(s3, Drop(id, true), s4)
    ensures s4.entry.None? && s4.requests == s.requests[id := Handling]
    ensures s4.log == s.log + [DeletedByDrop, Dropped, HandlerRan(id)]
  {
    s1 := Apply(s, Arrive(id, true));
    s2 := Apply(s1, SetNx(id, true));
    s3 := Apply(s2, Get(id));
    s4 := Apply(s3, Drop(id, true));
  }

  /** What a failing store call, or a process that stops, does to the entry and to its own request. */
  lemma FaultyCalls(s: System, id: nat, took: bool)
    ensures In(s, id, Arrived) ==>
              var s' := Apply(s, SetNxFails(id, took));
              s'.entry == (if took && s.entry.None? then Some(Pending) else s.entry) && AnswersError(s', id)
    ensures In(s, id, Looking) ==> var s' := Apply(s, GetFails(id)); s'.entry == s.entry && AnswersError(s', id)
    ensures In(s, id, Dropping) ==>
              var s' := Apply(s, DropFails(id, took));
              && s'.entry == (if took then None else s.entry) && AnswersError(s', id)
              && s'.log == s.log + (if took && s.entry.Some? then [DeletedByDrop] else [])
    ensures id in s.requests && s.requests[id].Answering? ==>
              var s' := Apply(s, SendFails(id, took));
              s'.entry == (if took then Apply(s, Send(id)).entry else s.entry) && In(s', id, Done(s.requests[id].reply))
    ensures id in s.requests ==>
              var s' := Apply(s, Crash(id)); s'.entry == s.entry && s'.log == s.log && s'.requests == s.requests - {id}
  {
  }

  /** The request is about to answer 500, and its `onSend` will still see its key. */
  predicate AnswersError(s: System, id: nat) {
    id in s.requests && s.requests[id].Answering? && s.requests[id].keyed && s.requests[id].reply.status == 500
  }

  /** Another guard of the route that refuses the request makes its `onSend` free the key again. */
  lemma GuardRefusalFreesTheKey(s: System, id: nat)
    requires In(s, id, Arrived) && s.entry.None?
    ensures var s1 := Apply(s, SetNx(id, false)); Enabled(s1, Send(id)) && Apply(s1, Send(id)).entry.None?
  {
  }

  // ----- Counting on the log -----

  function Handlers(log: seq<Event>): nat {
    if log == [] then 0 else Handlers(log[..|log| - 1]) + (if log[|log| - 1].HandlerRan? then 1 else 0)
  }

  /** Deletions by the `onSend` of replies outside 2xx. */
  function OnSendDeletions(log: seq<Event>): nat {
    if log == [] then 0
    else OnSendDeletions(log[..|log| - 1])
         + (if log[|log| - 1].DeletedByOnSend? && !Is2xx(log[|log| - 1].status) then 1 else 0)
  }

  function Expiries(log: seq<Event>): nat {
    if log == [] then 0 else Expiries(log[..|log| - 1]) + (if log[|log| - 1].Expired? then 1 else 0)
  }

  /** Malformed entries met: each lets its reader through, and may free the key as well. */
  function Drops(log: seq<Event>): nat {
    if log == [] then 0
    else Drops(log[..|log| - 1]) + (if log[|log| - 1].Dropped? || log[|log| - 1].DeletedByDrop? then 1 else 0)
  }

  function Allowance(log: seq<Event>): nat {
    OnSendDeletions(log) + Expiries(log) + Drops(log)
  }

  lemma LogSnoc(log: seq<Event>, e: Event)
    ensures Handlers(log + [e]) == Handlers(log) + (if e.HandlerRan? then 1 else 0)
    ensures !e.HandlerRan? && (e.DeletedByOnSend? ==> !Is2xx(e.status)) ==> Allowance(log + [e]) == Allowance(log) + 1
    ensures e.HandlerRan? ==> Allowance(log + [e]) == Allowance(log)
    ensures Drops(log + [e]) == Drops(log) + (if e.Dropped? || e.DeletedByDrop? then 1 else 0)
  {
    assert (log + [e])[..|log|] == log;
  }

  // ----- The bound -----

  ghost predicate Bounded(s: System) {
    Handlers(s.log) <= Allowance(s.log) + (if s.entry.Some? then 1 else 0)
  }

  lemma DeletedKeepsBound(s: System, e: Event)
    requires !e.HandlerRan? && (e.DeletedByOnSend? ==> !Is2xx(e.status))
    requires Bounded(s)
    ensures Bounded(Deleted(s, e)) && Handlers(Deleted(s, e).log) <= Allowance(Deleted(s, e).log)
  {
    LogSnoc(s.log, e);
    assert s.log + [] == s.log;
  }

  lemma StoredKeepsBound(s: System, reply: Reply, keyed: bool)
    requires Bounded(s)
    ensures Bounded(Stored(s, reply, keyed))
  {
    if !Is2xx(reply.status) {
      DeletedKeepsBound(s, DeletedByOnSend(reply.status));
    }
  }

  lemma StepKeepsBound(s: System, step: Step)
    requires Bounded(s) && Enabled(s, step)
    ensures Bounded(Apply(s, step))
  {
    match step
    case SetNx(id, _) =>
      LogSnoc(s.log, HandlerRan(id));
    case Drop(id, _) =>
      DeletedKeepsBound(s, DeletedByDrop);
      var s' := Deleted(s, DeletedByDrop);
      LogSnoc(s'.log, Dropped);
      LogSnoc(s'.log + [Dropped], HandlerRan(id));
    case DropFails(_, _) => DeletedKeepsBound(s, DeletedByDrop);
    case Send(id) => StoredKeepsBound(s, s.requests[id].reply, s.requests[id].keyed);
    case SendFails(id, _) => StoredKeepsBound(s, s.requests[id].reply, s.requests[id].keyed);
    case Expire => DeletedKeepsBound(s, Expired);
    case _ =>
  }

  /** In every interleaving, whatever fails, expires or is corrupted. */
  lemma {:induction false} HandlerBound(states: seq<System>, steps: seq<Step>, i: nat)
    requires Run(states, steps) && i < |states|
    ensures Bounded(states[i])
    ensures Handlers(states[i].log) <=
            1 + OnSendDeletions(states[i].log) + Expiries(states[i].log) + Drops(states[i].log)
  {
    if i > 0 {
      HandlerBound(states, steps, i - 1);
      StepKeepsBound(states[i - 1], steps[i - 1]);
    }
  }

  /** Nothing malformed anywhere. */
  ghost predicate WellFormed(s: System) {
    && s.entry != Some(Garbage)
    && (forall id | id in s.requests :: s.requests[id] != Dropping)
    && Drops(s.log) == 0
  }

  lemma StoredKeepsWellFormed(s: System, reply: Reply, keyed: bool)
    requires WellFormed(s)
    ensures WellFormed(Stored(s, reply, keyed))
  {
    LogSnoc(s.log, DeletedByOnSend(reply.status));
    assert s.log + [] == s.log;
  }

  lemma StepKeepsWellFormed(s: System, step: Step)
    requires WellFormed(s) && Enabled(s, step) && !step.Corrupt?
    ensures WellFormed(Apply(s, step))
  {
    hide Drops, Handlers, OnSendDeletions, Expiries, Captured, Replay;
    match step
    case SetNx(id, _) => LogSnoc(s.log, HandlerRan(id));
    case Send(id) => StoredKeepsWellFormed(s, s.requests[id].reply, s.requests[id].keyed);
    case SendFails(id, _) => StoredKeepsWellFormed(s, s.requests[id].reply, s.requests[id].keyed);
    case Expire => LogSnoc(s.log, Expired);
    case _ =>
  }

  /** When only the plugin writes the key, malformed entries are never met and the bound is the plain one. */
  lemma {:induction false} HandlerBoundForOwnWrites(states: seq<System>, steps: seq<Step>, i: nat)
    requires Run(states, steps) && i < |states| && forall k | 0 <= k < i :: !steps[k].Corrupt?
    ensures WellFormed(states[i])
    ensures Handlers(states[i].log) <= 1 + OnSendDeletions(states[i].log) + Expiries(states[i].log)
  {
    HandlerBound(states, steps, i);
    if i > 0 {
      HandlerBoundForOwnWrites(states, steps, i - 1);
      StepKeepsWellFormed(states[i - 1], steps[i - 1]);
    }
  }

  // ----- When two handlers of one key can run at once -----

  lemma Extend(states: seq<System>, steps: seq<Step>, step: Step, after: System)
    requires Run(states, steps) && Enabled(states[|states| - 1], step)
    requires after == Apply(states[|states| - 1], step)
    ensures Run(states + [after], steps + [step])
    ensures Arrivals(steps + [step]) == Arrivals(steps) + (if step.Arrive? then 1 else 0)
    ensures Quiet(steps) && !step.Expire? && !step.Corrupt? ==> Quiet(steps + [step])
  {
    assert (steps + [step])[..|steps|] == steps;
  }

  /** How many requests have come in with the key. */
  function Arrivals(steps: seq<Step>): nat {
    if steps == [] then 0 else Arrivals(steps[..|steps| - 1]) + (if steps[|steps| - 1].Arrive? then 1 else 0)
  }

  /** Nothing expires, and only the plugin writes the key. */
  ghost predicate Quiet(steps: seq<Step>) {
    forall i | 0 <= i < |steps| :: !steps[i].Expire? && !steps[i].Corrupt?
  }

  ghost predicate TwoHandle(s: System) {
    exists a, b :: a != b && In(s, a, Handling) && In(s, b, Handling)
  }

  /** With `n` arrivals so far: a running handler is guarded by the entry, or no other request is left. */
  ghost predicate Guarded(s: System, n: nat) {
    && WellFormed(s) && |s.requests| <= n && !TwoHandle(s)
    && forall a | In(s, a, Handling) ::
         s.entry.Some? || (n >= 2 && forall b | b in s.requests && b != a :: s.requests[b].Done?)
  }

  lemma OnlyTwo(keys: set<nat>, a: nat, b: nat, c: nat)
    requires |keys| <= 2 && a in keys && b in keys && c in keys && a != b
    ensures c == a || c == b
  {
    if c != a && c != b {
      assert {a, b, c} <= keys;
      Subset({a, b, c}, keys);
    }
  }

  lemma {:induction false} Subset(small: set<nat>, large: set<nat>)
    requires small <= large
    ensures |small| <= |large|
  {
    if small != {} {
      var x: nat :| x in small;
      Subset(small - {x}, large - {x});
    }
  }

  lemma StepKeepsSize(s: System, step: Step)
    requires Enabled(s, step)
    ensures |Apply(s, step).requests| <= |s.requests| + (if step.Arrive? then 1 else 0)
  {
    hide Stored, Deleted;
    var keys, after := s.requests.Keys, Apply(s, step).requests.Keys;
    assert |s.requests| == |keys| && |Apply(s, step).requests| == |after|;
    if step.Arrive? {
      assert after == keys + {step.id};
    } else {
      assert after <= keys by { StepKeepsKeys(s, step); }
      Subset(after, keys);
    }
  }

  lemma StepKeepsKeys(s: System, step: Step)
    requires Enabled(s, step) && !step.Arrive?
    ensures Apply(s, step).requests.Keys <= s.requests.Keys
  {
  }

  /** A step that starts a handler found no entry, unless it dropped a malformed one. */
  lemma StepStartsHandler(s: System, step: Step, id: nat)
    requires Enabled(s, step) && In(Apply(s, step), id, Handling) && !In(s, id, Handling)
    ensures (step.SetNx? && step.id == id && s.entry.None? && Apply(s, step).entry.Some?) || (step.Drop? && step.id == id)
  {
  }

  /** Without expiry, a step that removes the entry is some request's own `onSend` or a drop. */
  lemma StepRemovesEntry(s: System, step: Step)
    requires Enabled(s, step) && s.entry.Some? && Apply(s, step).entry.None? && !step.Expire?
    ensures step.Drop? || step.DropFails? || ((step.Send? || step.SendFails?) && Apply(s, step).requests[step.id].Done?)
  {
  }

  /** What any step does to the requests it is not about. */
  lemma StepLeavesOthers(s: System, step: Step, b: nat)
    requires Enabled(s, step) && b in s.requests
    requires step.Expire? || step.Corrupt? || step.id != b || s.requests[b].Done?
    ensures b in Apply(s, step).requests ==> Apply(s, step).requests[b] == s.requests[b]
  {
  }

  lemma StepKeepsGuarded(s: System, step: Step, n: nat)
    requires Guarded(s, n) && Enabled(s, step) && !step.Expire? && !step.Corrupt?
    requires n + (if step.Arrive? then 1 else 0) <= 2
    ensures Guarded(Apply(s, step), n + (if step.Arrive? then 1 else 0))
  {
    var s' := Apply(s, step);
    StepKeepsWellFormed(s, step);
    StepKeepsSize(s, step);
    assert !step.Drop? && !step.DropFails?;
    forall a | In(s', a, Handling)
      ensures s'.entry.Some? || (n >= 2 && forall b | b in s'.requests && b != a :: s'.requests[b].Done?)
      ensures forall b | In(s', b, Handling) :: b == a
    {
      GuardedAfter(s, step, n, a);
    }
  }

  lemma GuardedAfter(s: System, step: Step, n: nat, a: nat)
    requires Guarded(s, n) && Enabled(s, step) && !step.Expire? && !step.Corrupt? && !step.Drop? && !step.DropFails?
    requires n + (if step.Arrive? then 1 else 0) <= 2 && In(Apply(s, step), a, Handling)
    ensures var s' := Apply(s, step);
            && (s'.entry.Some? || (n >= 2 && forall b | b in s'.requests && b != a :: s'.requests[b].Done?))
            && forall b | In(s', b, Handling) :: b == a
  {
    var s' := Apply(s, step);
    hide Apply, WellFormed;
    if !In(s, a, Handling) {
      StepStartsHandler(s, step, a);
      forall b | In(s', b, Handling) ensures b == a {
        if !In(s, b, Handling) {
          StepStartsHandler(s, step, b);
        }
      }
    } else {
      forall b | In(s', b, Handling) ensures b == a {
        if !In(s, b, Handling) {
          StepStartsHandler(s, step, b);
        }
      }
      if s'.entry.None? {
        OthersAreDone(s, step, n, a);
      }
    }
  }

  lemma OthersAreDone(s: System, step: Step, n: nat, a: nat)
    requires Guarded(s, n) && Enabled(s, step) && !step.Expire? && !step.Corrupt? && !step.Drop? && !step.DropFails?
    requires n + (if step.Arrive? then 1 else 0) <= 2 && In(s, a, Handling)
    requires In(Apply(s, step), a, Handling) && Apply(s, step).entry.None?
    ensures n >= 2 && forall b | b in Apply(s, step).requests && b != a :: Apply(s, step).requests[b].Done?
  {
    var s' := Apply(s, step);
    if s.entry.Some? {
      StepRemovesEntry(s, step);
      assert step.id != a && {a, step.id} <= s.requests.Keys;
      Subset({a, step.id}, s.requests.Keys);
      forall b | b in s'.requests && b != a ensures s'.requests[b].Done? {
        StepKeepsKeys(s, step);
        OnlyTwo(s.requests.Keys, a, step.id, b);
      }
    } else {
      StepKeepsKeys(s, step);
      forall b | b in s'.requests && b != a ensures s'.requests[b].Done? {
        StepLeavesOthers(s, step, b);
      }
    }
  }

  lemma ArrivalsGrow(steps: seq<Step>, i: nat)
    requires i <= |steps|
    ensures Arrivals(steps[..i]) <= Arrivals(steps)
    decreases |steps|
  {
    if i == |steps| {
      assert steps[..i] == steps;
    } else {
      var n := |steps| - 1;
      ArrivalsGrow(steps[..n], i);
      assert steps[..n][..i] == steps[..i];
    }
  }

  lemma {:induction false} StaysGuarded(states: seq<System>, steps: seq<Step>, i: nat)
    requires Run(states, steps) && Quiet(steps) && Arrivals(steps) <= 2 && i < |states|
    ensures Guarded(states[i], Arrivals(steps[..i]))
  {
    if i > 0 {
      StaysGuarded(states, steps, i - 1);
      ArrivalsGrow(steps, i);
      assert steps[..i][..i - 1] == steps[..i - 1];
      StepKeepsGuarded(states[i - 1], steps[i - 1], Arrivals(steps[..i - 1]));
    }
  }

  /** However calls fail and processes stop, no run with `n` requests has two handlers at once. */
  ghost predicate NeverTwoHandlers(n: nat) {
    forall states, steps | Run(states, steps) && Quiet(steps) && Arrivals(steps) <= n ::
      forall s | s in states :: !TwoHandle(s)
  }

  /** The exclusion that the sentinel is for holds for two requests and fails from three on. */
  lemma NeverTwoHandlersIff(n: nat)
    ensures NeverTwoHandlers(n) <==> n <= 2
  {
    if n <= 2 {
      forall states, steps, s | Run(states, steps) && Quiet(steps) && Arrivals(steps) <= n && s in states
        ensures !TwoHandle(s)
      {
        var i :| 0 <= i < |states| && states[i] == s;
        StaysGuarded(states, steps, i);
      }
    } else {
      var states, steps := TwoHandlersAtOnce();
      assert TwoHandle(states[|states| - 1]);
    }
  }

  /** The first request holds the sentinel and runs its handler. */
  lemma FirstRuns() returns (states: seq<System>, steps: seq<Step>)
    ensures Run(states, steps) && Quiet(steps) && Arrivals(steps) == 1
    ensures states[|states| - 1] == System(Some(Pending), map[1 := Handling], [HandlerRan(1)])
  {
    var s0 := System(None, map[], []);
    var s1 := System(None, map[1 := Arrived], []);
    var s2 := System(Some(Pending), map[1 := Handling], [HandlerRan(1)]);
    states, steps := [s0], [];
    Extend(states, steps, Arrive(1, true), s1);
    states, steps := states + [s1], steps + [Arrive(1, true)];
    assert [] + [HandlerRan(1)] == [HandlerRan(1)];
    Extend(states, steps, SetNx(1, true), s2);
    states, steps := states + [s2], steps + [SetNx(1, true)];
  }

  /** A 409 reply's own `onSend` removes the sentinel of the request it collided with. */
  lemma ConflictFreesTheKey() returns (states: seq<System>, steps: seq<Step>)
    ensures Run(states, steps) && Quiet(steps) && Arrivals(steps) == 2
    ensures states[|states| - 1]
         == System(None, map[1 := Handling, 2 := Done(CONFLICT)], [HandlerRan(1), DeletedByOnSend(409)])
  {
    states, steps := FirstRuns();
    hide Run, Quiet, Arrivals;
    var s2 := System(Some(Pending), map[1 := Handling], [HandlerRan(1)]);
    var s3 := s2.(requests := map[1 := Handling, 2 := Arrived]);
    var s4 := s2.(requests := map[1 := Handling, 2 := Looking]);
    var s5 := s2.(requests := map[1 := Handling, 2 := Answering(CONFLICT, true)]);
    var s6 := System(None, map[1 := Handling, 2 := Done(CONFLICT)], [HandlerRan(1), DeletedByOnSend(409)]);
    Extend(states, steps, Arrive(2, true), s3);
    states, steps := states + [s3], steps + [Arrive(2, true)];
    Extend(states, steps, SetNx(2, true), s4);
    states, steps := states + [s4], steps + [SetNx(2, true)];
    Extend(states, steps, Get(2), s5);
    states, steps := states + [s5], steps + [Get(2)];
    assert [HandlerRan(1)] + [DeletedByOnSend(409)] == [HandlerRan(1), DeletedByOnSend(409)];
    Extend(states, steps, Send(2), s6);
    states, steps := states + [s6], steps + [Send(2)];
  }

  /** So a third request runs the handler while the first still does, with nothing expired. */
  lemma TwoHandlersAtOnce() returns (states: seq<System>, steps: seq<Step>)
    ensures Run(states, steps) && Quiet(steps) && Arrivals(steps) == 3
    ensures In(states[|states| - 1], 1, Handling) && In(states[|states| - 1], 3, Handling)
  {
    states, steps := ConflictFreesTheKey();
    hide Run, Quiet, Arrivals;
    var log := [HandlerRan(1), DeletedByOnSend(409)];
    var s7 := System(None, map[1 := Handling, 2 := Done(CONFLICT), 3 := Arrived], log);
    Extend(states, steps, Arrive(3, true), s7);
    states, steps := states + [s7], steps + [Arrive(3, true)];
    var s8 := System(Some(Pending), map[1 := Handling, 2 := Done(CONFLICT), 3 := Handling], log + [HandlerRan(3)]);
    Extend(states, steps, SetNx(3, true), s8);
    states, steps := states + [s8], steps + [SetNx(3, true)];
  }

  // ----- The counting bound is attained -----

  /** The key is free again, ids from `n` on are unused, and the log has these counts. */
  ghost predicate Free(s: System, n: nat, handlers: nat, deletions: nat, expiries: nat, drops: nat) {
    && s.entry == None && (forall id | id in s.requests :: id < n)
    && Handlers(s.log) == handlers && OnSendDeletions(s.log) == deletions
    && Expiries(s.log) == expiries && Drops(s.log) == drops
  }

  lemma CountsSnoc(log: seq<Event>, e: Event)
    ensures Handlers(log + [e]) == Handlers(log) + (if e.HandlerRan? then 1 else 0)
    ensures OnSendDeletions(log + [e]) == OnSendDeletions(log) + (if e.DeletedByOnSend? && !Is2xx(e.status) then 1 else 0)
    ensures Expiries(log + [e]) == Expiries(log) + (if e.Expired? then 1 else 0)
    ensures Drops(log + [e]) == Drops(log) + (if e.Dropped? || e.DeletedByDrop? then 1 else 0)
  {
    assert (log + [e])[..|log|] == log;
  }

  /** A request arrives at a free key and runs its handler. */
  lemma HandlerStarts(states: seq<System>, steps: seq<Step>, n: nat) returns (states': seq<System>, steps': seq<Step>)
    requires Run(states, steps) && states[|states| - 1].entry == None && n !in states[|states| - 1].requests
    ensures Run(states', steps')
    ensures var (s, s') := (states[|states| - 1], states'[|states'| - 1]);
            s' == System(Some(Pending), s.requests[n := Handling], s.log + [HandlerRan(n)])
  {
    var s := states[|states| - 1];
    var s1 := Moved(s, n, Arrived);
    var s2 := Apply(s1, SetNx(n, true));
    Extend(states, steps, Arrive(n, true), s1);
    Extend(states + [s1], steps + [Arrive(n, true)], SetNx(n, true), s2);
    states', steps' := states + [s1] + [s2], steps + [Arrive(n, true)] + [SetNx(n, true)];
    assert s.requests[n := Arrived][n := Handling] == s.requests[n := Handling];
  }

  /** The handler fails, and its reply frees the key. */
  lemma DeletionRound(states: seq<System>, steps: seq<Step>, n: nat, h: nat, d: nat, e: nat, m: nat)
    returns (states': seq<System>, steps': seq<Step>)
    requires Run(states, steps) && Free(states[|states| - 1], n, h, d, e, m)
    ensures Run(states', steps') && Free(states'[|states'| - 1], n + 1, h + 1, d + 1, e, m)
  {
    var log := states[|states| - 1].log;
    states', steps' := HandlerStarts(states, steps, n);
    hide Run;
    var s2 := states'[|states'| - 1];
    var s3 := Apply(s2, HandlerReplies(n, ERROR));
    Extend(states', steps', HandlerReplies(n, ERROR), s3);
    states', steps' := states' + [s3], steps' + [HandlerReplies(n, ERROR)];
    var s4 := Apply(s3, Send(n));
    Extend(states', steps', Send(n), s4);
    states', steps' := states' + [s4], steps' + [Send(n)];
    CountsSnoc(log, HandlerRan(n));
    CountsSnoc(log + [HandlerRan(n)], DeletedByOnSend(500));
  }

  /** The sentinel expires under the running handler. */
  lemma ExpiryRound(states: seq<System>, steps: seq<Step>, n: nat, h: nat, d: nat, e: nat, m: nat)
    returns (states': seq<System>, steps': seq<Step>)
    requires Run(states, steps) && Free(states[|states| - 1], n, h, d, e, m)
    ensures Run(states', steps') && Free(states'[|states'| - 1], n + 1, h + 1, d, e + 1, m)
  {
    var log := states[|states| - 1].log;
    states', steps' := HandlerStarts(states, steps, n);
    hide Run;
    var s3 := Apply(states'[|states'| - 1], Expire);
    Extend(states', steps', Expire, s3);
    states', steps' := states' + [s3], steps' + [Expire];
    CountsSnoc(log, HandlerRan(n));
    CountsSnoc(log + [HandlerRan(n)], Expired);
  }

  /** While a handler runs, its sentinel is overwritten by text that a second request reads. */
  lemma GarbageIsRead(states: seq<System>, steps: seq<Step>, n: nat) returns (states': seq<System>, steps': seq<Step>)
    requires Run(states, steps) && states[|states| - 1].entry == Some(Pending)
    requires n !in states[|states| - 1].requests
    ensures Run(states', steps')
    ensures var (s, s') := (states[|states| - 1], states'[|states'| - 1]);
            s' == System(Some(Garbage), s.requests[n := Dropping], s.log)
  {
    var s := states[|states| - 1];
    hide Run;
    var s1 := s.(entry := Some(Garbage));
    var s2, s3, s4 := Moved(s1, n, Arrived), Moved(s1, n, Looking), Moved(s1, n, Dropping);
    Extend(states, steps, Corrupt, s1);
    states', steps' := states + [s1], steps + [Corrupt];
    Extend(states', steps', Arrive(n, true), s2);
    states', steps' := states' + [s2], steps' + [Arrive(n, true)];
    assert s2.requests[n := Looking] == s3.requests && s3.requests[n := Dropping] == s4.requests;
    Extend(states', steps', SetNx(n, true), s3);
    states', steps' := states' + [s3], steps' + [SetNx(n, true)];
    Extend(states', steps', Get(n), s4);
    states', steps' := states' + [s4], steps' + [Get(n)];
  }

  /** The second request drops the text and runs its handler as well. */
  lemma DropRound(states: seq<System>, steps: seq<Step>, n: nat, h: nat, d: nat, e: nat, m: nat)
    returns (states': seq<System>, steps': seq<Step>)
    requires Run(states, steps) && Free(states[|states| - 1], n, h, d, e, m)
    ensures Run(states', steps') && Free(states'[|states'| - 1], n + 2, h + 2, d, e, m + 2)
  {
    var s := states[|states| - 1];
    states', steps' := HandlerStarts(states, steps, n);
    states', steps' := GarbageIsRead(states', steps', n + 1);
    hide Run;
    var s' := Apply(states'[|states'| - 1], Drop(n + 1, true));
    Extend(states', steps', Drop(n + 1, true), s');
    states', steps' := states' + [s'], steps' + [Drop(n + 1, true)];
    DropCounts(s.log, n);
    assert s'.log == s.log + [HandlerRan(n)] + [DeletedByDrop] + [Dropped] + [HandlerRan(n + 1)];
  }

  lemma DropCounts(log: seq<Event>, n: nat)
    ensures var log' := log + [HandlerRan(n)] + [DeletedByDrop] + [Dropped] + [HandlerRan(n + 1)];
            && Handlers(log') == Handlers(log) + 2 && Drops(log') == Drops(log) + 2
            && OnSendDeletions(log') == OnSendDeletions(log) && Expiries(log') == Expiries(log)
  {
    CountsSnoc(log, HandlerRan(n));
    CountsSnoc(log + [HandlerRan(n)], DeletedByDrop);
    CountsSnoc(log + [HandlerRan(n)] + [DeletedByDrop], Dropped);
    CountsSnoc(log + [HandlerRan(n)] + [DeletedByDrop] + [Dropped], HandlerRan(n + 1));
  }

  lemma {:induction false} Rounds(d: nat, e: nat, m: nat) returns (states: seq<System>, steps: seq<Step>, n: nat)
    ensures Run(states, steps) && Free(states[|states| - 1], n, d + e + 2 * m, d, e, 2 * m)
    decreases d + e + m
  {
    if d > 0 {
      states, steps, n := Rounds(d - 1, e, m);
      states, steps := DeletionRound(states, steps, n, d - 1 + e + 2 * m, d - 1, e, 2 * m);
      n := n + 1;
    } else if e > 0 {
      states, steps, n := Rounds(d, e - 1, m);
      states, steps := ExpiryRound(states, steps, n, d + e - 1 + 2 * m, d, e - 1, 2 * m);
      n := n + 1;
    } else if m > 0 {
      states, steps, n := Rounds(d, e, m - 1);
      states, steps := DropRound(states, steps, n, d + e + 2 * (m - 1), d, e, 2 * (m - 1));
      n := n + 2;
    } else {
      states, steps, n := [System(None, map[], [])], [], 0;
    }
  }

  /** For every number of deletions, expiries and malformed entries some run attains the bound. */
  lemma HandlerBoundIsAttained(d: nat, e: nat, m: nat) returns (states: seq<System>, steps: seq<Step>)
    ensures Run(states, steps)
    ensures var log := states[|states| - 1].log;
            && OnSendDeletions(log) == d && Expiries(log) == e && Drops(log) == 2 * m
            && Handlers(log) == 1 + OnSendDeletions(log) + Expiries(log) + Drops(log)
  {
    var n;
    states, steps, n := Rounds(d, e, m);
    CountsSnoc(states[|states| - 1].log, HandlerRan(n));
    states, steps := HandlerStarts(states, steps, n);
  }
}
