/**
 * Every interleaving of any number of admin requests over one breaker. A request suspends inside
 * an attempt and while it sleeps; between two suspensions it runs alone. The clock never goes back.
 */
module ConcurrentRequests {
  import opened Wrappers
  import opened Numerals
  import opened Breaker
  import opened AdminRequests

  datatype Phase = Attempting | Sleeping | Succeeded | Failed | Rejected

  datatype Request = Request(post: bool, admittedAs: CircuitState, phase: Phase, trace: seq<Attempt>, draws: seq<Draw>)

  /** What the log keeps of a run. */
  datatype Event = ProbeAdmitted(id: nat) | FlagCleared | SuccessRecorded | FailureCounted

  datatype System = System(clock: int, breaker: Snapshot, requests: map<nat, Request>, log: seq<Event>)

  datatype Step =
    | Tick(now: int)
    | Enter(id: nat, post: bool, now: int, stamp: int)
    | Settle(id: nat, attempt: Attempt, random: Draw, seen: int, stamp: int)
    | Wake(id: nat)

  predicate Running(r: Request) {
    r.phase == Attempting || r.phase == Sleeping
  }

  predicate Init(s: System) {
    s.breaker == INITIAL && s.requests == map[] && s.log == []
  }

  predicate Enabled(s: System, step: Step) {
    match step
    case Tick(now) => s.clock <= now
    case Enter(id, post, now, stamp) => id !in s.requests && s.clock <= now <= stamp
    case Settle(id, attempt, random, seen, stamp) =>
      id in s.requests && s.requests[id].phase == Attempting && s.clock <= seen <= stamp
    case Wake(id) => id in s.requests && s.requests[id].phase == Sleeping
  }

  /** Log entries of a step: what it recorded, and whether it took the half-open flag down. */
  function Entries(before: Snapshot, after: Snapshot, recorded: seq<Event>): seq<Event> {
    recorded + (if before.halfOpenInFlight && !after.halfOpenInFlight then [FlagCleared] else [])
  }

  function Entered(cfg: Config, s: System, id: nat, post: bool, now: int, stamp: int): System {
    match Guard(cfg, s.breaker, now)
    case None =>
      s.(clock := stamp, requests := s.requests[id := Request(post, Open, Rejected, [], [])])
    case Some(admitted) =>
      var (state, b) := admitted;
      var probe := if state == HalfOpen then [ProbeAdmitted(id)] else [];
      if cfg.maxAttempts > 0 then
        System(stamp, b, s.requests[id := Request(post, state, Attempting, [], [])], s.log + probe)
      else
        // The loop body never runs; the code after it counts one failure.
        var b' := Fail(cfg, b, now, stamp);
        System(stamp, b', s.requests[id := Request(post, state, Failed, [], [])],
               s.log + probe + Entries(b, b', [FailureCounted]))
  }

  function AttemptSettled(cfg: Config, s: System, id: nat, a: Attempt, random: Draw, seen: int, stamp: int): System
    requires id in s.requests
  {
    var r := s.requests[id].(trace := s.requests[id].trace + [a]);
    match OutcomeOf(a)
    case None =>
      var b := Succeed(s.breaker);
      System(stamp, b, s.requests[id := r.(phase := Succeeded)], s.log + Entries(s.breaker, b, [SuccessRecorded]))
    case Some(err) =>
      if !IsRetryable(err, r.post) || |r.trace| >= cfg.maxAttempts then
        var b := GiveUp(cfg, s.breaker, err, r.admittedAs, seen, stamp);
        System(stamp, b, s.requests[id := r.(phase := Failed)],
               s.log + Entries(s.breaker, b, if CountsTowardBreaker(err) then [FailureCounted] else []))
      else
        s.(clock := stamp, requests := s.requests[id := r.(phase := Sleeping, draws := r.draws + [random])])
  }

  function Apply(cfg: Config, s: System, step: Step): System
    requires Enabled(s, step)
  {
    match step
    case Tick(now) => s.(clock := now)
    case Enter(id, post, now, stamp) => Entered(cfg, s, id, post, now, stamp)
    case Settle(id, a, random, seen, stamp) => AttemptSettled(cfg, s, id, a, random, seen, stamp)
    case Wake(id) => s.(requests := s.requests[id := s.requests[id].(phase := Attempting)])
  }

  /** The clock shows the last reading of each step. */
  lemma ClockFollows(cfg: Config, s: System, step: Step)
    requires Enabled(s, step)
    ensures s.clock <= Apply(cfg, s, step).clock
    ensures Apply(cfg, s, step).clock == match step
                                         case Tick(now) => now
                                         case Enter(_, _, _, stamp) => stamp
                                         case Settle(_, _, _, _, stamp) => stamp
                                         case Wake(_) => s.clock
  {
  }

  /** `steps[i]` leads from `states[i]` to `states[i + 1]`. */
  ghost predicate RunFrom(cfg: Config, s: System, states: seq<System>, steps: seq<Step>) {
    && |states| == |steps| + 1
    && states[0] == s
    && forall i | 0 <= i < |steps| :: Enabled(states[i], steps[i]) && states[i + 1] == Apply(cfg, states[i], steps[i])
  }

  ghost predicate Run(cfg: Config, states: seq<System>, steps: seq<Step>) {
    |states| > 0 && Init(states[0]) && RunFrom(cfg, states[0], states, steps)
  }

  // ----- What the log says, read on its own -----

  /** Failures that counted since the last success. */
  function FailuresSinceSuccess(log: seq<Event>): nat {
    if log == [] then 0
    else match log[|log| - 1]
      case SuccessRecorded => 0
      case FailureCounted => FailuresSinceSuccess(log[..|log| - 1]) + 1
      case ProbeAdmitted(_) => FailuresSinceSuccess(log[..|log| - 1])
      case FlagCleared => FailuresSinceSuccess(log[..|log| - 1])
  }

  function Probes(log: seq<Event>): nat {
    if log == [] then 0 else Probes(log[..|log| - 1]) + (if log[|log| - 1].ProbeAdmitted? then 1 else 0)
  }

  function Clearings(log: seq<Event>): nat {
    if log == [] then 0 else Clearings(log[..|log| - 1]) + (if log[|log| - 1].FlagCleared? then 1 else 0)
  }

  /** Two admissions of probes always have a clearing of the flag between them. */
  ghost predicate Separated(log: seq<Event>) {
    forall i, j | 0 <= i < j < |log| && log[i].ProbeAdmitted? && log[j].ProbeAdmitted? ::
      exists k :: i < k < j && log[k].FlagCleared?
  }

  /** After the last admission of a probe the flag has come down again. */
  ghost predicate Released(log: seq<Event>) {
    forall i | 0 <= i < |log| && log[i].ProbeAdmitted? :: exists k :: i < k < |log| && log[k].FlagCleared?
  }

  // ----- The invariant -----

  ghost predicate ProbeRunning(s: System) {
    exists id :: id in s.requests && Running(s.requests[id]) && s.requests[id].admittedAs == HalfOpen
  }

  ghost predicate RequestOk(cfg: Config, r: Request) {
    && Allowed(cfg, r.post, r.trace)
    && (r.phase == Rejected ==> r.trace == [] && r.draws == [])
    && (Running(r) ==> |r.trace| < cfg.maxAttempts && forall i | 0 <= i < |r.trace| :: MayGoAgain(r.post, r.trace[i]))
    && (Running(r) ==> |r.draws| == |r.trace|)
    && (r.phase == Succeeded || r.phase == Failed ==> Complete(cfg, r.post, r.trace) && |r.draws| == Max(0, |r.trace| - 1))
    && (r.phase == Succeeded ==> r.trace != [] && Concluded(r.trace) == Returned)
  }

  ghost predicate BreakerOk(cfg: Config, s: System) {
    && (s.breaker.circuitOpenedAtMs.Some? ==> s.breaker.circuitOpenedAtMs.value <= s.clock)
    && (s.breaker.halfOpenInFlight ==> StateAt(cfg, s.breaker, s.clock) == HalfOpen && ProbeRunning(s))
    && s.breaker.consecutiveFailures == FailuresSinceSuccess(s.log)
    && (s.breaker.circuitOpenedAtMs.Some? <==> FailuresSinceSuccess(s.log) >= Max(1, cfg.failureThreshold))
  }

  ghost predicate LogOk(s: System) {
    && Separated(s.log)
    && (!s.breaker.halfOpenInFlight ==> Released(s.log))
    && Probes(s.log) == Clearings(s.log) + (if s.breaker.halfOpenInFlight then 1 else 0)
  }

  ghost predicate Inv(cfg: Config, s: System) {
    && BreakerOk(cfg, s)
    && LogOk(s)
    && forall id | id in s.requests :: RequestOk(cfg, s.requests[id])
  }

  // ----- How the log functions grow -----

  lemma LogSnoc(log: seq<Event>, e: Event)
    ensures FailuresSinceSuccess(log + [e]) ==
      match e
      case SuccessRecorded => 0
      case FailureCounted => FailuresSinceSuccess(log) + 1
      case ProbeAdmitted(_) => FailuresSinceSuccess(log)
      case FlagCleared => FailuresSinceSuccess(log)
    ensures Probes(log + [e]) == Probes(log) + (if e.ProbeAdmitted? then 1 else 0)
    ensures Clearings(log + [e]) == Clearings(log) + (if e.FlagCleared? then 1 else 0)
  {
    assert (log + [e])[..|log|] == log;
  }

  lemma SeparatedSnoc(log: seq<Event>, e: Event)
    requires Separated(log)
    requires e.ProbeAdmitted? ==> Released(log)
    ensures Separated(log + [e])
  {
    var after := log + [e];
    forall i, j | 0 <= i < j < |after| && after[i].ProbeAdmitted? && after[j].ProbeAdmitted?
      ensures exists k :: i < k < j && after[k].FlagCleared?
    {
      assert after[i] == log[i];
      if j < |log| {
        assert after[j] == log[j];
        var k :| i < k < j && log[k].FlagCleared?;
        assert after[k].FlagCleared?;
      } else {
        var k :| i < k < |log| && log[k].FlagCleared?;
        assert after[k].FlagCleared?;
      }
    }
  }

  lemma ReleasedSnoc(log: seq<Event>, e: Event)
    requires !e.ProbeAdmitted?
    requires Released(log) || e.FlagCleared?
    ensures Released(log + [e])
  {
    var after := log + [e];
    forall i | 0 <= i < |after| && after[i].ProbeAdmitted?
      ensures exists k :: i < k < |after| && after[k].FlagCleared?
    {
      assert after[i] == log[i];
      if e.FlagCleared? {
        assert after[|log|].FlagCleared?;
      } else {
        var k :| i < k < |log| && log[k].FlagCleared?;
        assert after[k].FlagCleared?;
      }
    }
  }

  /** One recorded event, optionally followed by the clearing of the flag. */
  lemma LogKept(s: System, after: Snapshot, recorded: Event, s': System)
    requires LogOk(s)
    requires recorded.SuccessRecorded? || recorded.FailureCounted?
    requires after.halfOpenInFlight ==> s.breaker.halfOpenInFlight
    requires s'.log == s.log + Entries(s.breaker, after, [recorded]) && s'.breaker == after
    ensures LogOk(s')
    ensures FailuresSinceSuccess(s'.log) == (if recorded.SuccessRecorded? then 0 else FailuresSinceSuccess(s.log) + 1)
  {
    var mid := s.log + [recorded];
    LogSnoc(s.log, recorded);
    SeparatedSnoc(s.log, recorded);
    if !s.breaker.halfOpenInFlight {
      ReleasedSnoc(s.log, recorded);
    }
    if s.breaker.halfOpenInFlight && !after.halfOpenInFlight {
      assert s'.log == mid + [FlagCleared];
      LogSnoc(mid, FlagCleared);
      SeparatedSnoc(mid, FlagCleared);
      ReleasedSnoc(mid, FlagCleared);
    } else {
      assert s'.log == mid;
    }
  }

  /** The release of the slot by a probe whose failure does not count. */
  lemma LogKeptOnRelease(s: System, after: Snapshot, s': System)
    requires LogOk(s)
    requires after.halfOpenInFlight ==> s.breaker.halfOpenInFlight
    requires s'.log == s.log + Entries(s.breaker, after, []) && s'.breaker == after
    ensures LogOk(s') && FailuresSinceSuccess(s'.log) == FailuresSinceSuccess(s.log)
  {
    if s.breaker.halfOpenInFlight && !after.halfOpenInFlight {
      assert s'.log == s.log + [FlagCleared];
      LogSnoc(s.log, FlagCleared);
      SeparatedSnoc(s.log, FlagCleared);
      ReleasedSnoc(s.log, FlagCleared);
    } else {
      assert s'.log == s.log;
    }
  }

  lemma LogKeptOnProbe(s: System, id: nat, s': System)
    requires LogOk(s) && !s.breaker.halfOpenInFlight
    requires s'.log == s.log + [ProbeAdmitted(id)] && s'.breaker == s.breaker.(halfOpenInFlight := true)
    ensures LogOk(s') && FailuresSinceSuccess(s'.log) == FailuresSinceSuccess(s.log)
  {
    LogSnoc(s.log, ProbeAdmitted(id));
    SeparatedSnoc(s.log, ProbeAdmitted(id));
  }

  // ----- Every step keeps the invariant -----

  /** The log up to `guardCircuit`'s return, in the state it leaves. */
  lemma EnterKeepsLog(cfg: Config, s: System, id: nat, post: bool, now: int, stamp: int)
    requires LogOk(s) && Enabled(s, Enter(id, post, now, stamp))
    ensures var s' := Apply(cfg, s, Enter(id, post, now, stamp));
            LogOk(s')
            && (FailuresSinceSuccess(s'.log) == FailuresSinceSuccess(s.log)
                + if Guard(cfg, s.breaker, now).Some? && cfg.maxAttempts <= 0 then 1 else 0)
  {
    var s' := Apply(cfg, s, Enter(id, post, now, stamp));
    var guard := Guard(cfg, s.breaker, now);
    if guard.Some? {
      var (state, b) := guard.value;
      var mid := if state == HalfOpen then s.(breaker := b, log := s.log + [ProbeAdmitted(id)]) else s;
      if state == HalfOpen {
        LogKeptOnProbe(s, id, mid);
      }
      if cfg.maxAttempts > 0 {
        assert s'.log == mid.log;
      } else {
        assert s'.log == mid.log + Entries(b, s'.breaker, [FailureCounted]);
        LogKept(mid, s'.breaker, FailureCounted, s');
      }
    }
  }

  lemma EnterKeepsInv(cfg: Config, s: System, id: nat, post: bool, now: int, stamp: int)
    requires Inv(cfg, s) && Enabled(s, Enter(id, post, now, stamp))
    ensures Inv(cfg, Apply(cfg, s, Enter(id, post, now, stamp)))
  {
    var s' := Apply(cfg, s, Enter(id, post, now, stamp));
    EnterKeepsLog(cfg, s, id, post, now, stamp);
    EnteredIsOk(cfg, s, id, post, now, stamp);
    ProbesStay(s, s', id);
    RequestsStay(cfg, s, s', id);
    EnterKeepsBreaker(cfg, s, id, post, now, stamp);
    hide Apply, BreakerOk, LogOk, RequestOk, ProbeRunning;
  }

  lemma EnteredIsOk(cfg: Config, s: System, id: nat, post: bool, now: int, stamp: int)
    requires Enabled(s, Enter(id, post, now, stamp))
    ensures var s' := Apply(cfg, s, Enter(id, post, now, stamp));
            && id in s'.requests && RequestOk(cfg, s'.requests[id])
            && forall j | j != id :: (j in s.requests <==> j in s'.requests)
                                     && (j in s.requests ==> s'.requests[j] == s.requests[j])
  {
  }

  lemma EnterKeepsBreaker(cfg: Config, s: System, id: nat, post: bool, now: int, stamp: int)
    requires BreakerOk(cfg, s) && Enabled(s, Enter(id, post, now, stamp))
    requires var s' := Apply(cfg, s, Enter(id, post, now, stamp));
             (FailuresSinceSuccess(s'.log) == FailuresSinceSuccess(s.log)
              + if Guard(cfg, s.breaker, now).Some? && cfg.maxAttempts <= 0 then 1 else 0)
             && (ProbeRunning(s) ==> ProbeRunning(s'))
    ensures BreakerOk(cfg, Apply(cfg, s, Enter(id, post, now, stamp)))
  {
    var s' := Apply(cfg, s, Enter(id, post, now, stamp));
    if s'.breaker.halfOpenInFlight && !s.breaker.halfOpenInFlight {
      assert Running(s'.requests[id]) && s'.requests[id].admittedAs == HalfOpen;
    }
  }

  lemma RequestsStay(cfg: Config, s: System, s': System, id: nat)
    requires forall j | j in s.requests :: RequestOk(cfg, s.requests[j])
    requires forall j | j in s'.requests && j != id :: j in s.requests && s'.requests[j] == s.requests[j]
    requires id in s'.requests ==> RequestOk(cfg, s'.requests[id])
    ensures forall j | j in s'.requests :: RequestOk(cfg, s'.requests[j])
  {
  }

  /** A running probe other than `id` is still one after a step that only touches `id`. */
  lemma ProbesStay(s: System, s': System, id: nat)
    requires forall j | j in s.requests && j != id :: j in s'.requests && s'.requests[j] == s.requests[j]
    ensures ProbeRunning(s) ==>
      ProbeRunning(s') || (id in s.requests && Running(s.requests[id]) && s.requests[id].admittedAs == HalfOpen)
  {
    if ProbeRunning(s) {
      var p :| p in s.requests && Running(s.requests[p]) && s.requests[p].admittedAs == HalfOpen;
      assert p != id ==> p in s'.requests && Running(s'.requests[p]);
    }
  }

  lemma SettleKeepsRequest(cfg: Config, s: System, id: nat, a: Attempt, random: Draw, seen: int, stamp: int)
    requires id in s.requests && RequestOk(cfg, s.requests[id]) && s.requests[id].phase == Attempting
    ensures RequestOk(cfg, AttemptSettled(cfg, s, id, a, random, seen, stamp).requests[id])
  {
    var r := s.requests[id];
    RetryPolicy(r.post, a);
    assert forall i | 0 <= i < |r.trace| :: (r.trace + [a])[i] == r.trace[i];
  }

  /** How many counted failures a settled attempt leaves behind, given how many there were. */
  function FailuresAfter(cfg: Config, r: Request, a: Attempt, failures: nat): nat {
    match OutcomeOf(a)
    case None => 0
    case Some(err) =>
      if (!IsRetryable(err, r.post) || |r.trace| + 1 >= cfg.maxAttempts) && CountsTowardBreaker(err)
      then failures + 1 else failures
  }

  lemma SettleKeepsLog(cfg: Config, s: System, id: nat, a: Attempt, random: Draw, seen: int, stamp: int)
    requires LogOk(s) && id in s.requests
    ensures var s' := AttemptSettled(cfg, s, id, a, random, seen, stamp);
            LogOk(s')
            && FailuresSinceSuccess(s'.log) == FailuresAfter(cfg, s.requests[id], a, FailuresSinceSuccess(s.log))
  {
    var s' := AttemptSettled(cfg, s, id, a, random, seen, stamp);
    match OutcomeOf(a)
    case None =>
      LogKept(s, s'.breaker, SuccessRecorded, s');
    case Some(err) =>
      if s'.requests[id].phase == Failed {
        if CountsTowardBreaker(err) {
          LogKept(s, s'.breaker, FailureCounted, s');
        } else {
          LogKeptOnRelease(s, s'.breaker, s');
        }
      }
  }

  lemma SettleKeepsBreaker(cfg: Config, s: System, id: nat, a: Attempt, random: Draw, seen: int, stamp: int)
    requires BreakerOk(cfg, s) && Enabled(s, Settle(id, a, random, seen, stamp))
    requires FailuresSinceSuccess(AttemptSettled(cfg, s, id, a, random, seen, stamp).log)
          == FailuresAfter(cfg, s.requests[id], a, FailuresSinceSuccess(s.log))
    ensures BreakerOk(cfg, AttemptSettled(cfg, s, id, a, random, seen, stamp))
  {
    hide OutcomeOf, IsRetryable, CountsTowardBreaker, FailuresSinceSuccess, BackoffMs;
    var s' := AttemptSettled(cfg, s, id, a, random, seen, stamp);
    ProbesStay(s, s', id);
    if s'.requests[id].phase == Sleeping && s.requests[id].admittedAs == HalfOpen {
      assert Running(s'.requests[id]);
    }
  }

  lemma SettleTouchesOne(cfg: Config, s: System, id: nat, a: Attempt, random: Draw, seen: int, stamp: int)
    requires id in s.requests
    ensures var s' := AttemptSettled(cfg, s, id, a, random, seen, stamp);
            && id in s'.requests
            && forall j | j in s'.requests && j != id :: j in s.requests && s'.requests[j] == s.requests[j]
  {
    hide OutcomeOf, IsRetryable, CountsTowardBreaker;
  }

  lemma SettleKeepsInv(cfg: Config, s: System, id: nat, a: Attempt, random: Draw, seen: int, stamp: int)
    requires Inv(cfg, s) && Enabled(s, Settle(id, a, random, seen, stamp))
    ensures Inv(cfg, Apply(cfg, s, Settle(id, a, random, seen, stamp)))
  {
    hide AttemptSettled, BreakerOk, LogOk, RequestOk, FailuresSinceSuccess, FailuresAfter;
    var s' := AttemptSettled(cfg, s, id, a, random, seen, stamp);
    SettleTouchesOne(cfg, s, id, a, random, seen, stamp);
    SettleKeepsRequest(cfg, s, id, a, random, seen, stamp);
    SettleKeepsLog(cfg, s, id, a, random, seen, stamp);
    SettleKeepsBreaker(cfg, s, id, a, random, seen, stamp);
    RequestsStay(cfg, s, s', id);
  }

  lemma StepKeepsInv(cfg: Config, s: System, step: Step)
    requires Inv(cfg, s) && Enabled(s, step)
    ensures Inv(cfg, Apply(cfg, s, step))
  {
    match step
    case Tick(now) =>
      ProbesStay(s, Apply(cfg, s, step), 0);
      assert Apply(cfg, s, step).requests == s.requests;
    case Enter(id, post, now, stamp) => EnterKeepsInv(cfg, s, id, post, now, stamp);
    case Settle(id, a, random, seen, stamp) => SettleKeepsInv(cfg, s, id, a, random, seen, stamp);
    case Wake(id) =>
      var s' := Apply(cfg, s, step);
      ProbesStay(s, s', id);
      assert RequestOk(cfg, s.requests[id]);
      assert Running(s'.requests[id]);
  }

  lemma {:induction false} RunKeepsInv(cfg: Config, states: seq<System>, steps: seq<Step>, i: nat)
    requires Run(cfg, states, steps) && i < |states|
    ensures Inv(cfg, states[i])
  {
    if i > 0 {
      RunKeepsInv(cfg, states, steps, i - 1);
      StepKeepsInv(cfg, states[i - 1], steps[i - 1]);
    }
  }

  // ----- Main results: over every run -----

  /** The flag is up only in a half-open circuit, and only while a request admitted as probe runs. */
  lemma FlagMeansRunningProbe(cfg: Config, states: seq<System>, steps: seq<Step>, i: nat)
    requires Run(cfg, states, steps) && i < |states| && states[i].breaker.halfOpenInFlight
    ensures StateAt(cfg, states[i].breaker, states[i].clock) == HalfOpen && ProbeRunning(states[i])
  {
    RunKeepsInv(cfg, states, steps, i);
  }

  /** Hence no wedge: with no probe running, entry is refused only while the open window lasts. */
  lemma NeverWedged(cfg: Config, states: seq<System>, steps: seq<Step>, i: nat, now: int)
    requires Run(cfg, states, steps) && i < |states| && !ProbeRunning(states[i]) && now >= states[i].clock
    ensures var timer := states[i].breaker.circuitOpenedAtMs;
            Guard(cfg, states[i].breaker, now).None? <==> timer.Some? && now < timer.value + cfg.openMs
  {
    RunKeepsInv(cfg, states, steps, i);
  }

  /** Between two clearings of the flag at most one probe is admitted, and the counts balance. */
  lemma ProbesAlternateWithClearings(cfg: Config, states: seq<System>, steps: seq<Step>, i: nat)
    requires Run(cfg, states, steps) && i < |states|
    ensures Separated(states[i].log)
    ensures Probes(states[i].log) == Clearings(states[i].log) + (if states[i].breaker.halfOpenInFlight then 1 else 0)
  {
    RunKeepsInv(cfg, states, steps, i);
  }

  /** When the timer is set, in terms of the recorded failures alone, for any threshold. */
  lemma OpenIffEnoughFailures(cfg: Config, states: seq<System>, steps: seq<Step>, i: nat)
    requires Run(cfg, states, steps) && i < |states|
    ensures states[i].breaker.circuitOpenedAtMs.Some? <==>
            FailuresSinceSuccess(states[i].log) >= Max(1, cfg.failureThreshold)
  {
    RunKeepsInv(cfg, states, steps, i);
  }

  ghost predicate OpensExactlyAtThreshold(cfg: Config, states: seq<System>) {
    forall i | 0 <= i < |states| :: states[i].breaker.circuitOpenedAtMs.Some? <==>
                                    FailuresSinceSuccess(states[i].log) >= cfg.failureThreshold
  }

  /** The configured threshold is the literal one exactly when it is positive. */
  lemma ThresholdIsLiteralIffPositive(cfg: Config)
    ensures (forall states: seq<System>, steps: seq<Step> | Run(cfg, states, steps) :: OpensExactlyAtThreshold(cfg, states))
            <==> cfg.failureThreshold >= 1
  {
    if cfg.failureThreshold >= 1 {
      forall states: seq<System>, steps: seq<Step> | Run(cfg, states, steps) ensures OpensExactlyAtThreshold(cfg, states) {
        forall i | 0 <= i < |states|
          ensures states[i].breaker.circuitOpenedAtMs.Some? <==> FailuresSinceSuccess(states[i].log) >= cfg.failureThreshold
        {
          OpenIffEnoughFailures(cfg, states, steps, i);
        }
      }
    } else {
      var start := System(0, INITIAL, map[], []);
      assert Run(cfg, [start], []);
      assert !OpensExactlyAtThreshold(cfg, [start]) by {
        assert [start][0].log == [];
      }
    }
  }

  // ----- The same on the wire -----

  /** The attempt ends its request: it holds a result, may not go again, or was the last one. */
  predicate EndsRequest(cfg: Config, r: Request, a: Attempt) {
    HoldsResult(a) || !MayGoAgain(r.post, a) || |r.trace| + 1 >= cfg.maxAttempts
  }

  /** How every kind of attempt leaves its request, and what it does to the count. */
  lemma SettleOnWire(cfg: Config, s: System, id: nat, a: Attempt, random: Draw, seen: int, stamp: int)
    requires Enabled(s, Settle(id, a, random, seen, stamp)) && LogOk(s)
    ensures var (r, s') := (s.requests[id], Apply(cfg, s, Settle(id, a, random, seen, stamp)));
            && s'.requests[id].phase == (if HoldsResult(a) then Succeeded
                                         else if EndsRequest(cfg, r, a) then Failed else Sleeping)
            && FailuresSinceSuccess(s'.log) == (if HoldsResult(a) then 0
                                                else FailuresSinceSuccess(s.log)
                                                     + if EndsRequest(cfg, r, a) && CountsOnWire(a) then 1 else 0)
  {
    OutcomeOnWire(a);
    RetryPolicy(s.requests[id].post, a);
    SettleKeepsLog(cfg, s, id, a, random, seen, stamp);
    hide OutcomeOf, IsRetryable, CountsTowardBreaker, HoldsResult, CountsOnWire, MayGoAgain;
  }

  /** The step ends a request in a way that counts: on the wire, or by having no attempt at all. */
  predicate Counts(cfg: Config, s: System, step: Step)
    requires Enabled(s, step)
  {
    match step
    case Settle(id, a, _, _, _) => EndsRequest(cfg, s.requests[id], a) && CountsOnWire(a)
    case Enter(id, _, now, _) => cfg.maxAttempts <= 0 && Guard(cfg, s.breaker, now).Some?
    case _ => false
  }

  predicate Succeeds(step: Step) {
    step.Settle? && HoldsResult(step.attempt)
  }

  /** The counting endings of the first `j` steps since the last success among them. */
  function WireCount(cfg: Config, states: seq<System>, steps: seq<Step>, j: nat): nat
    requires j <= |steps| <= |states| && forall i | 0 <= i < |steps| :: Enabled(states[i], steps[i])
  {
    if j == 0 || Succeeds(steps[j - 1]) then 0
    else WireCount(cfg, states, steps, j - 1) + (if Counts(cfg, states[j - 1], steps[j - 1]) then 1 else 0)
  }

  lemma StepOnWire(cfg: Config, s: System, step: Step)
    requires Inv(cfg, s) && Enabled(s, step)
    ensures FailuresSinceSuccess(Apply(cfg, s, step).log)
         == if Succeeds(step) then 0 else FailuresSinceSuccess(s.log) + (if Counts(cfg, s, step) then 1 else 0)
  {
    hide FailuresSinceSuccess, CountsOnWire, HoldsResult;
    match step
    case Settle(id, a, random, seen, stamp) =>
      CountedHoldsNoResult(a);
      SettleOnWire(cfg, s, id, a, random, seen, stamp);
    case Enter(id, post, now, stamp) => EnterKeepsLog(cfg, s, id, post, now, stamp);
    case _ =>
  }

  lemma CountedHoldsNoResult(a: Attempt)
    ensures CountsOnWire(a) ==> !HoldsResult(a)
  {
  }

  /** The breaker's counter is that count, in every run. */
  lemma {:induction false} CounterIsWireCount(cfg: Config, states: seq<System>, steps: seq<Step>, j: nat)
    requires Run(cfg, states, steps) && j < |states|
    ensures states[j].breaker.consecutiveFailures == WireCount(cfg, states, steps, j)
  {
    RunKeepsInv(cfg, states, steps, j);
    if j > 0 {
      CounterIsWireCount(cfg, states, steps, j - 1);
      RunKeepsInv(cfg, states, steps, j - 1);
      StepOnWire(cfg, states[j - 1], steps[j - 1]);
    }
  }

  /** The ending that makes the count reach the threshold arms the timer with its own time. */
  lemma ThresholdArmsTimer(cfg: Config, states: seq<System>, steps: seq<Step>, j: nat)
    requires Run(cfg, states, steps) && j < |steps|
    requires WireCount(cfg, states, steps, j) < Max(1, cfg.failureThreshold) <= WireCount(cfg, states, steps, j + 1)
    ensures states[j + 1].breaker.circuitOpenedAtMs == Some(states[j + 1].clock)
  {
    hide WireCount, FailuresSinceSuccess;
    CounterIsWireCount(cfg, states, steps, j);
    CounterIsWireCount(cfg, states, steps, j + 1);
    RunKeepsInv(cfg, states, steps, j);
    RunKeepsInv(cfg, states, steps, j + 1);
    ArmingStep(cfg, states[j], steps[j]);
  }

  lemma ArmingStep(cfg: Config, s: System, step: Step)
    requires Enabled(s, step) && s.breaker.circuitOpenedAtMs.None?
    requires Apply(cfg, s, step).breaker.circuitOpenedAtMs.Some?
    ensures Apply(cfg, s, step).breaker.circuitOpenedAtMs == Some(Apply(cfg, s, step).clock)
  {
    hide OutcomeOf, IsRetryable, CountsTowardBreaker;
  }

  /** From then on, whatever happens, entry is refused until the window has passed. */
  lemma RefusedWhileOpen(cfg: Config, states: seq<System>, steps: seq<Step>, j: nat, k: nat, now: int)
    requires Run(cfg, states, steps) && j < k < |states| && states[k].clock <= now < states[j + 1].clock + cfg.openMs
    requires WireCount(cfg, states, steps, j) < Max(1, cfg.failureThreshold) <= WireCount(cfg, states, steps, j + 1)
    requires forall i | j < i < k :: !Succeeds(steps[i])
    ensures Guard(cfg, states[k].breaker, now).None?
  {
    ThresholdArmsTimer(cfg, states, steps, j);
    ArmedStays(cfg, states, steps, j + 1, k);
  }

  predicate ArmedSince(s: System, since: int) {
    s.breaker.circuitOpenedAtMs.Some? && since <= s.breaker.circuitOpenedAtMs.value && since <= s.clock
  }

  lemma {:induction false} ArmedStays(cfg: Config, states: seq<System>, steps: seq<Step>, j: nat, k: nat)
    requires Run(cfg, states, steps) && j <= k < |states| && ArmedSince(states[j], states[j].clock)
    requires forall i | j <= i < k :: !Succeeds(steps[i])
    ensures ArmedSince(states[k], states[j].clock)
    decreases k
  {
    if j < k {
      ArmedStays(cfg, states, steps, j, k - 1);
      RunStep(cfg, states, steps, k - 1);
      StepKeepsArmed(cfg, states[k - 1], steps[k - 1], states[j].clock);
    }
  }

  /** Only a success disarms the timer, and a failed probe moves it forward. */
  lemma StepKeepsArmed(cfg: Config, s: System, step: Step, since: int)
    requires Enabled(s, step) && ArmedSince(s, since) && !Succeeds(step)
    ensures ArmedSince(Apply(cfg, s, step), since)
  {
    if step.Settle? {
      OutcomeOnWire(step.attempt);
    }
    hide OutcomeOf, HoldsResult, CountsOnWire;
  }

  /** A status outside 5xx neither counts, nor resets the count, nor moves the timer. */
  lemma OtherStatusesLeaveTheCount(cfg: Config, s: System, id: nat, res: Response, random: Draw, seen: int, stamp: int)
    requires Enabled(s, Settle(id, Replied(res), random, seen, stamp))
    requires !IsOk(res.status) && !IsServerError(res.status)
    ensures var s' := Apply(cfg, s, Settle(id, Replied(res), random, seen, stamp));
            && s'.breaker.consecutiveFailures == s.breaker.consecutiveFailures
            && s'.breaker.circuitOpenedAtMs == s.breaker.circuitOpenedAtMs
            && FailuresSinceSuccess(s'.log) == FailuresSinceSuccess(s.log)
  {
    var s' := Apply(cfg, s, Settle(id, Replied(res), random, seen, stamp));
    if s'.log != s.log {
      assert s'.log == s.log + [FlagCleared];
      LogSnoc(s.log, FlagCleared);
    }
  }

  /** A request that enters while the circuit is open sends nothing, then or later. */
  lemma {:induction false} EnteredWhileOpenSendsNothing(
    cfg: Config, states: seq<System>, steps: seq<Step>, i: nat, j: nat, id: nat, post: bool, now: int, stamp: int)
    requires Run(cfg, states, steps) && i < j < |states| && steps[i] == Enter(id, post, now, stamp)
    requires StateAt(cfg, states[i].breaker, now) == Open
    ensures id in states[j].requests && states[j].requests[id].phase == Rejected
    ensures Sends(states[j].requests[id].trace) == 0
    ensures states[i + 1].breaker == states[i].breaker
  {
    hide RunFrom, RequestOk, BreakerOk, LogOk, Apply, Enabled;
    RunStep(cfg, states, steps, i);
    if j == i + 1 {
      OpenRejects(cfg, states[i], id, post, now, stamp);
    } else {
      EnteredWhileOpenSendsNothing(cfg, states, steps, i, j - 1, id, post, now, stamp);
      RunStep(cfg, states, steps, j - 1);
      RejectedStays(cfg, states[j - 1], steps[j - 1], id);
      OpenRejects(cfg, states[i], id, post, now, stamp);
    }
  }

  lemma RunStep(cfg: Config, states: seq<System>, steps: seq<Step>, i: nat)
    requires Run(cfg, states, steps) && i + 1 < |states|
    ensures |states| == |steps| + 1 && Enabled(states[i], steps[i]) && states[i + 1] == Apply(cfg, states[i], steps[i])
  {
  }

  lemma OpenRejects(cfg: Config, s: System, id: nat, post: bool, now: int, stamp: int)
    requires Enabled(s, Enter(id, post, now, stamp)) && StateAt(cfg, s.breaker, now) == Open
    ensures var s' := Apply(cfg, s, Enter(id, post, now, stamp));
            s'.requests == s.requests[id := Request(post, Open, Rejected, [], [])] && s'.breaker == s.breaker
  {
  }

  lemma RejectedStays(cfg: Config, s: System, step: Step, id: nat)
    requires Enabled(s, step) && id in s.requests && s.requests[id].phase == Rejected
    ensures id in Apply(cfg, s, step).requests && Apply(cfg, s, step).requests[id] == s.requests[id]
  {
  }

  /** The retry policy and both caps on sleeping hold for every request of every run. */
  lemma EveryRequestIsBounded(cfg: Config, states: seq<System>, steps: seq<Step>, i: nat, id: nat)
    requires Run(cfg, states, steps) && i < |states| && id in states[i].requests
    requires cfg.maxAttempts >= 1 && cfg.initialBackoffMs >= 0 && cfg.maxBackoffMs >= 0
    ensures var r := states[i].requests[id];
            && Allowed(cfg, r.post, r.trace)
            && Sends(r.trace) <= cfg.maxAttempts
            && Sum(Sleeps(cfg, r.draws)) <= cfg.maxBackoffMs * (cfg.maxAttempts - 1)
            && Sum(Sleeps(cfg, r.draws)) <= cfg.initialBackoffMs * (Pow2(cfg.maxAttempts - 1) - 1)
  {
    RunKeepsInv(cfg, states, steps, i);
    var r := states[i].requests[id];
    assert RequestOk(cfg, r);
    SendsAtMostAttempts(r.trace);
    SleepWithinHardCap(cfg, r.draws);
    SleepWithinExponentialCap(cfg, r.draws);
    MulMono(cfg.maxBackoffMs, |r.draws|, cfg.maxAttempts - 1);
    Pow2Mono(|r.draws|, cfg.maxAttempts - 1);
    MulMono(cfg.initialBackoffMs, Pow2(|r.draws|) - 1, Pow2(cfg.maxAttempts - 1) - 1);
  }

  lemma MulMono(m: int, a: int, b: int)
    requires m >= 0 && a <= b
    ensures m * a <= m * b
  {
    assert m * (b - a) >= 0;
  }

  lemma {:induction false} Pow2Mono(a: nat, b: nat)
    requires a <= b
    ensures Pow2(a) <= Pow2(b)
    decreases b
  {
    if a < b {
      Pow2Mono(a, b - 1);
    }
  }

  // ----- When two probes can run at once -----

  predicate RunsAsProbe(s: System, id: nat) {
    id in s.requests && Running(s.requests[id]) && s.requests[id].admittedAs == HalfOpen
  }

  ghost predicate AnotherRuns(s: System, p: nat) {
    exists q | q in s.requests :: q != p && Running(s.requests[q])
  }

  ghost predicate AnotherProbeRuns(s: System, p: nat) {
    exists q :: q != p && RunsAsProbe(s, q)
  }

  /** In some continuation `p` still runs and so does another probe. */
  ghost predicate CanOverlap(cfg: Config, s: System, p: nat) {
    exists states, steps :: RunFrom(cfg, s, states, steps)
      && RunsAsProbe(states[|steps|], p) && AnotherProbeRuns(states[|steps|], p)
  }

  /** `p` is over, or runs alone behind the raised flag. */
  ghost predicate OverOrAlone(cfg: Config, s: System, p: nat) {
    && p in s.requests
    && (Running(s.requests[p]) ==>
          s.breaker.halfOpenInFlight && StateAt(cfg, s.breaker, s.clock) == HalfOpen && !AnotherRuns(s, p))
  }

  lemma StepKeepsAlone(cfg: Config, s: System, step: Step, p: nat)
    requires Enabled(s, step) && OverOrAlone(cfg, s, p)
    ensures OverOrAlone(cfg, Apply(cfg, s, step), p)
  {
    var s' := Apply(cfg, s, step);
    if Running(s'.requests[p]) {
      assert Running(s.requests[p]);
      forall q | q in s'.requests && q != p ensures !Running(s'.requests[q]) {
        assert q in s.requests ==> !Running(s.requests[q]);
      }
    }
  }

  lemma {:induction false} AloneStays(cfg: Config, s: System, states: seq<System>, steps: seq<Step>, i: nat, p: nat)
    requires RunFrom(cfg, s, states, steps) && i <= |steps| && OverOrAlone(cfg, s, p)
    ensures OverOrAlone(cfg, states[i], p)
  {
    if i > 0 {
      AloneStays(cfg, s, states, steps, i - 1, p);
      StepKeepsAlone(cfg, states[i - 1], steps[i - 1], p);
    }
  }

  lemma Continue(cfg: Config, s: System, states: seq<System>, steps: seq<Step>, step: Step)
    requires RunFrom(cfg, s, states, steps) && Enabled(states[|steps|], step)
    ensures RunFrom(cfg, s, states + [Apply(cfg, states[|steps|], step)], steps + [step])
  {
  }

  /** A running request can come to its next attempt, and nothing else changes. */
  lemma ReachAttempt(cfg: Config, s: System, p: nat, q: nat) returns (states: seq<System>, steps: seq<Step>)
    requires BreakerOk(cfg, s) && RunsAsProbe(s, p) && q != p && q in s.requests && Running(s.requests[q])
    ensures RunFrom(cfg, s, states, steps)
    ensures var s' := states[|steps|];
            && BreakerOk(cfg, s') && s'.breaker == s.breaker && RunsAsProbe(s', p)
            && q in s'.requests && s'.requests[q].phase == Attempting
  {
    states, steps := [s], [];
    if s.requests[q].phase == Sleeping {
      Continue(cfg, s, states, steps, Wake(q));
      var s' := Apply(cfg, s, Wake(q));
      states, steps := states + [s'], steps + [Wake(q)];
      assert RunsAsProbe(s', p);
    }
  }

  /** The failing request takes the flag down and re-arms the timer under the running probe. */
  lemma OtherFails(cfg: Config, s: System, p: nat, q: nat) returns (step: Step)
    requires BreakerOk(cfg, s) && s.breaker.halfOpenInFlight && RunsAsProbe(s, p)
    requires q != p && q in s.requests && s.requests[q].phase == Attempting
    ensures Enabled(s, step)
    ensures var s' := Apply(cfg, s, step);
            && s'.clock == s.clock && RunsAsProbe(s', p)
            && s'.breaker.circuitOpenedAtMs == Some(s.clock) && !s'.breaker.halfOpenInFlight
  {
    step := Settle(q, NoToken(Garbled), 0.0, s.clock, s.clock);
  }

  /** The run, continued by one enabled step. */
  lemma Then(cfg: Config, s: System, states: seq<System>, steps: seq<Step>, step: Step)
    returns (longer: seq<System>, longerSteps: seq<Step>)
    requires RunFrom(cfg, s, states, steps) && Enabled(states[|steps|], step)
    ensures |longer| == |longerSteps| + 1 && RunFrom(cfg, s, longer, longerSteps)
    ensures longer[|longerSteps|] == Apply(cfg, states[|steps|], step)
  {
    Continue(cfg, s, states, steps, step);
    longer, longerSteps := states + [Apply(cfg, states[|steps|], step)], steps + [step];
  }

  /** With the flag down, once the window has passed, the next request is admitted as a second probe. */
  lemma NextIsProbe(cfg: Config, s: System, p: nat) returns (tick: Step, enter: Step)
    requires RunsAsProbe(s, p) && s.breaker.circuitOpenedAtMs.Some? && !s.breaker.halfOpenInFlight
    requires cfg.maxAttempts > 0
    ensures Enabled(s, tick) && Enabled(Apply(cfg, s, tick), enter)
    ensures var s' := Apply(cfg, Apply(cfg, s, tick), enter); RunsAsProbe(s', p) && AnotherProbeRuns(s', p)
  {
    var now := Max(s.clock, s.breaker.circuitOpenedAtMs.value + cfg.openMs);
    var id := FreshId(s.requests.Keys);
    tick, enter := Tick(now), Enter(id, false, now, now);
    assert RunsAsProbe(Apply(cfg, Apply(cfg, s, tick), enter), id);
  }

  /** In a closed circuit a new request can enter and fail: the failure counts, or opens the circuit. */
  lemma NewOneFails(cfg: Config, s: System, p: nat) returns (enter: Step, settle: Step)
    requires RunsAsProbe(s, p) && s.breaker.circuitOpenedAtMs.None? && !s.breaker.halfOpenInFlight
    requires cfg.maxAttempts > 0
    ensures Enabled(s, enter) && Enabled(Apply(cfg, s, enter), settle)
    ensures var s' := Apply(cfg, Apply(cfg, s, enter), settle);
            && RunsAsProbe(s', p) && !s'.breaker.halfOpenInFlight
            && s'.breaker.consecutiveFailures == s.breaker.consecutiveFailures + 1
            && (s'.breaker.circuitOpenedAtMs.None? ==> s'.breaker.consecutiveFailures < cfg.failureThreshold)
  {
    var id := FreshId(s.requests.Keys);
    enter, settle := Enter(id, false, s.clock, s.clock), Settle(id, NoToken(Garbled), 0.0, s.clock, s.clock);
    var s1 := Apply(cfg, s, enter);
    assert s1.breaker == s.breaker && s1.requests[id].trace == [];
  }

  /** So while a probe runs with the flag down, the circuit can open again under it. */
  lemma {:induction false} ReachTimer(cfg: Config, s: System, p: nat, states: seq<System>, steps: seq<Step>)
    returns (longer: seq<System>, longerSteps: seq<Step>)
    requires RunFrom(cfg, s, states, steps) && cfg.maxAttempts > 0
    requires RunsAsProbe(states[|steps|], p) && !states[|steps|].breaker.halfOpenInFlight
    ensures |longer| == |longerSteps| + 1 && RunFrom(cfg, s, longer, longerSteps)
    ensures var s' := longer[|longerSteps|];
            RunsAsProbe(s', p) && !s'.breaker.halfOpenInFlight && s'.breaker.circuitOpenedAtMs.Some?
    decreases cfg.failureThreshold - states[|steps|].breaker.consecutiveFailures
  {
    hide Apply, Enabled, RunsAsProbe;
    longer, longerSteps := states, steps;
    if states[|steps|].breaker.circuitOpenedAtMs.None? {
      var enter, settle := NewOneFails(cfg, states[|steps|], p);
      longer, longerSteps := Then(cfg, s, longer, longerSteps, enter);
      longer, longerSteps := Then(cfg, s, longer, longerSteps, settle);
      if longer[|longerSteps|].breaker.circuitOpenedAtMs.None? {
        longer, longerSteps := ReachTimer(cfg, s, p, longer, longerSteps);
      }
    }
  }

  /** With the flag down under a running probe, a second probe can come. */
  lemma UnflaggedLeadsToOverlap(cfg: Config, s: System, p: nat, states: seq<System>, steps: seq<Step>)
    returns (longer: seq<System>, longerSteps: seq<Step>)
    requires RunFrom(cfg, s, states, steps) && cfg.maxAttempts > 0
    requires RunsAsProbe(states[|steps|], p) && !states[|steps|].breaker.halfOpenInFlight
    ensures RunFrom(cfg, s, longer, longerSteps)
    ensures RunsAsProbe(longer[|longerSteps|], p) && AnotherProbeRuns(longer[|longerSteps|], p)
  {
    hide RunFrom, Apply, Enabled, RunsAsProbe, AnotherProbeRuns;
    longer, longerSteps := ReachTimer(cfg, s, p, states, steps);
    var tick, enter := NextIsProbe(cfg, longer[|longerSteps|], p);
    longer, longerSteps := Then(cfg, s, longer, longerSteps, tick);
    longer, longerSteps := Then(cfg, s, longer, longerSteps, enter);
  }

  lemma OtherLeadsToOverlap(cfg: Config, s: System, p: nat, q: nat) returns (states: seq<System>, steps: seq<Step>)
    requires Inv(cfg, s) && s.breaker.halfOpenInFlight && RunsAsProbe(s, p)
    requires q != p && q in s.requests && Running(s.requests[q])
    ensures RunFrom(cfg, s, states, steps)
    ensures RunsAsProbe(states[|steps|], p) && AnotherProbeRuns(states[|steps|], p)
  {
    assert RequestOk(cfg, s.requests[p]);
    states, steps := ReachAttempt(cfg, s, p, q);
    hide RunFrom, Apply, Enabled, BreakerOk, RunsAsProbe, AnotherProbeRuns;
    var settle := OtherFails(cfg, states[|steps|], p, q);
    states, steps := Then(cfg, s, states, steps, settle);
    states, steps := UnflaggedLeadsToOverlap(cfg, s, p, states, steps);
  }

  /**
   * While a probe runs, a second one can come to run next to it exactly if the flag is down or any
   * other request is in flight; else no continuation admits one before the probe is over.
   */
  lemma ProbesCanOverlapIff(cfg: Config, s: System, p: nat)
    requires Inv(cfg, s) && RunsAsProbe(s, p)
    ensures CanOverlap(cfg, s, p) <==> !s.breaker.halfOpenInFlight || AnotherRuns(s, p)
  {
    assert RequestOk(cfg, s.requests[p]);
    if !s.breaker.halfOpenInFlight {
      assert RunFrom(cfg, s, [s], []);
      var states, steps := UnflaggedLeadsToOverlap(cfg, s, p, [s], []);
    } else if AnotherRuns(s, p) {
      var q :| q in s.requests && q != p && Running(s.requests[q]);
      var states, steps := OtherLeadsToOverlap(cfg, s, p, q);
    } else {
      forall states, steps | RunFrom(cfg, s, states, steps) && RunsAsProbe(states[|steps|], p)
        ensures !AnotherProbeRuns(states[|steps|], p)
      {
        AloneStays(cfg, s, states, steps, |steps|, p);
      }
    }
  }

  // ----- What settings without attempts, and bodies and tokens that do not parse, count as -----

  /** With no attempt allowed, a request that is let in sends nothing and counts one failure. */
  lemma NoAttemptsCountOneFailure(cfg: Config, s: System, id: nat, post: bool, now: int, stamp: int)
    requires Enabled(s, Enter(id, post, now, stamp)) && cfg.maxAttempts <= 0 && Guard(cfg, s.breaker, now).Some?
    ensures var s' := Apply(cfg, s, Enter(id, post, now, stamp));
            && Sends(s'.requests[id].trace) == 0 && s'.requests[id].phase == Failed
            && FailuresSinceSuccess(s'.log) == FailuresSinceSuccess(s.log) + 1
  {
    var (state, b) := Guard(cfg, s.breaker, now).value;
    var b' := Fail(cfg, b, now, stamp);
    var admitted := s.log + (if state == HalfOpen then [ProbeAdmitted(id)] else []);
    if state == HalfOpen {
      LogSnoc(s.log, ProbeAdmitted(id));
    } else {
      assert admitted == s.log;
    }
    LogSnoc(admitted, FailureCounted);
    LogSnoc(admitted + [FailureCounted], FlagCleared);
    assert Entries(b, b', [FailureCounted]) == [FailureCounted]
        || Entries(b, b', [FailureCounted]) == [FailureCounted] + [FlagCleared];
    assert admitted + ([FailureCounted] + [FlagCleared]) == admitted + [FailureCounted] + [FlagCleared];
    assert admitted + Entries(b, b', [FailureCounted]) == Apply(cfg, s, Enter(id, post, now, stamp)).log;
  }

  /** A good status with a body that is no JSON, or a token endpoint that answers 5xx or no JSON. */
  predicate IsUnparsedOrTokenError(a: Attempt) {
    match a
    case Replied(res) =>
      IsOk(res.status) && res.status != 204 && !(res.status == 201 && res.location) && res.body == NotJson
    case NoToken(p) => p == Garbled || (p.Refused? && IsServerError(p.status))
    case SendFailed => false
  }

  /** Each of these ends its request at once and counts one failure. */
  lemma UnparsedCountsOneFailure(cfg: Config, s: System, id: nat, a: Attempt, random: Draw, seen: int, stamp: int)
    requires Enabled(s, Settle(id, a, random, seen, stamp)) && LogOk(s) && IsUnparsedOrTokenError(a)
    ensures var s' := Apply(cfg, s, Settle(id, a, random, seen, stamp));
            s'.requests[id].phase == Failed && FailuresSinceSuccess(s'.log) == FailuresSinceSuccess(s.log) + 1
  {
    SettleKeepsLog(cfg, s, id, a, random, seen, stamp);
  }

  lemma Concat(cfg: Config, states: seq<System>, steps: seq<Step>, later: seq<System>, laterSteps: seq<Step>)
    requires Run(cfg, states, steps) && RunFrom(cfg, states[|steps|], later, laterSteps)
    ensures Run(cfg, states + later[1..], steps + laterSteps)
    ensures (states + later[1..])[|steps + laterSteps|] == later[|laterSteps|]
  {
    var (all, allSteps) := (states + later[1..], steps + laterSteps);
    forall i | 0 <= i < |allSteps| ensures Enabled(all[i], allSteps[i]) && all[i + 1] == Apply(cfg, all[i], allSteps[i]) {
      if i >= |steps| {
        assert all[i] == later[i - |steps|] && all[i + 1] == later[i + 1 - |steps|];
      }
    }
  }

  /** A probe runs behind the raised flag, and so does a request admitted while the circuit was closed. */
  lemma ReachProbeAndOther() returns (cfg: Config, states: seq<System>, steps: seq<Step>)
    ensures Run(cfg, states, steps)
    ensures var s := states[|steps|];
            s.breaker.halfOpenInFlight && RunsAsProbe(s, 2) && 1 in s.requests && Running(s.requests[1])
  {
    cfg := Config(1, 10, 1, 0, 0);
    var s0 := System(0, INITIAL, map[], []);
    steps := [Enter(0, false, 0, 0), Enter(1, false, 0, 0), Settle(0, SendFailed, 0.0, 0, 0), Enter(2, false, 10, 10)];
    var s1 := Apply(cfg, s0, steps[0]);
    var s2 := Apply(cfg, s1, steps[1]);
    assert s2.requests == map[0 := Request(false, Closed, Attempting, [], []), 1 := Request(false, Closed, Attempting, [], [])];
    var s3 := Apply(cfg, s2, steps[2]);
    assert s3.breaker == Snapshot(1, Some(0), false);
    var s4 := Apply(cfg, s3, steps[3]);
    assert s4.breaker == Snapshot(1, Some(0), true);
    assert s4.requests[1] == s2.requests[1];
    states := [s0, s1, s2, s3, s4];
  }

  /** So two probes can run at once, from the empty system on. */
  lemma TwoProbesCanOverlap() returns (cfg: Config, states: seq<System>, steps: seq<Step>)
    ensures Run(cfg, states, steps)
    ensures RunsAsProbe(states[|steps|], 2) && AnotherProbeRuns(states[|steps|], 2)
  {
    cfg, states, steps := ReachProbeAndOther();
    RunKeepsInv(cfg, states, steps, |steps|);
    var later, laterSteps := OtherLeadsToOverlap(cfg, states[|steps|], 2, 1);
    Concat(cfg, states, steps, later, laterSteps);
    states, steps := states + later[1..], steps + laterSteps;
  }
}
