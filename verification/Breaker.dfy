/**
 * The circuit breaker of the Keycloak admin client: the three closure variables
 * `consecutiveFailures`, `circuitOpenedAtMs` and `halfOpenInFlight`, what each helper does to
 * them, and the class whose methods update them in place.
 */
module Breaker {
  import opened Wrappers

  datatype Config = Config(
    failureThreshold: int,
    openMs: int,
    maxAttempts: int,
    initialBackoffMs: int,
    maxBackoffMs: int)

  datatype CircuitState = Closed | Open | HalfOpen

  /** What an attempt can fail with. Any other thrown error is a `Network` failure. */
  datatype Failure =
    | MalformedJson
    | TokenStatus(status: int)
    | AdminStatus(status: int)
    | Network

  datatype Snapshot = Snapshot(consecutiveFailures: int, circuitOpenedAtMs: Option<int>, halfOpenInFlight: bool)

  const INITIAL := Snapshot(0, None, false)

  predicate IsServerError(status: int) {
    500 <= status < 600
  }

  predicate CountsTowardBreaker(err: Failure) {
    match err
    case TokenStatus(status) => IsServerError(status)
    case AdminStatus(status) => IsServerError(status)
    case MalformedJson => true
    case Network => true
  }

  function StateAt(cfg: Config, b: Snapshot, now: int): CircuitState {
    if b.circuitOpenedAtMs.None? then Closed
    else if now - b.circuitOpenedAtMs.value >= cfg.openMs then HalfOpen
    else Open
  }

  function Succeed(b: Snapshot): Snapshot {
    INITIAL
  }

  /** `seen` is the clock read by `circuitState`, `stamp` the later read stored in the timer. */
  function Fail(cfg: Config, b: Snapshot, seen: int, stamp: int): Snapshot {
    var failures := b.consecutiveFailures + 1;
    if StateAt(cfg, b, seen) == HalfOpen then
      Snapshot(failures, Some(stamp), false)
    else if failures >= cfg.failureThreshold && b.circuitOpenedAtMs.None? then
      Snapshot(failures, Some(stamp), b.halfOpenInFlight)
    else
      Snapshot(failures, b.circuitOpenedAtMs, b.halfOpenInFlight)
  }

  /** `guardCircuit`: None stands for a thrown `CircuitOpenError`, which changes nothing. */
  function Guard(cfg: Config, b: Snapshot, now: int): Option<(CircuitState, Snapshot)> {
    match StateAt(cfg, b, now)
    case Open => None
    case Closed => Some((Closed, b))
    case HalfOpen => if b.halfOpenInFlight then None else Some((HalfOpen, b.(halfOpenInFlight := true)))
  }

  /** `handleTerminalError` for a request that `guardCircuit` admitted as `admittedAs`. */
  function GiveUp(cfg: Config, b: Snapshot, err: Failure, admittedAs: CircuitState, seen: int, stamp: int): Snapshot {
    if CountsTowardBreaker(err) then Fail(cfg, b, seen, stamp)
    else if admittedAs == HalfOpen then b.(halfOpenInFlight := false)
    else b
  }

  /** What some other request does to the shared variables while this one is suspended. */
  datatype Change =
    | Enters(now: int)
    | Succeeds
    | GivesUp(err: Failure, admittedAs: CircuitState, seen: int, stamp: int)

  function Changed(cfg: Config, b: Snapshot, c: Change): Snapshot {
    match c
    case Enters(now) => (match Guard(cfg, b, now) case None => b case Some(admitted) => admitted.1)
    case Succeeds => Succeed(b)
    case GivesUp(err, admittedAs, seen, stamp) => GiveUp(cfg, b, err, admittedAs, seen, stamp)
  }

  function ChangedAll(cfg: Config, b: Snapshot, cs: seq<Change>): Snapshot {
    if cs == [] then b else Changed(cfg, ChangedAll(cfg, b, cs[..|cs| - 1]), cs[|cs| - 1])
  }

  class CircuitBreaker {
    const cfg: Config
    var consecutiveFailures: int
    var circuitOpenedAtMs: Option<int>
    var halfOpenInFlight: bool

    ghost function View(): Snapshot
      reads this
    {
      Snapshot(consecutiveFailures, circuitOpenedAtMs, halfOpenInFlight)
    }

    constructor (cfg: Config)
      ensures this.cfg == cfg && View() == INITIAL
    {
      this.cfg := cfg;
      consecutiveFailures, circuitOpenedAtMs, halfOpenInFlight := 0, None, false;
    }

    method CurrentState(now: int) returns (state: CircuitState)
      ensures state == StateAt(cfg, View(), now)
    {
      if circuitOpenedAtMs == None {
        return Closed;
      }
      if now - circuitOpenedAtMs.value >= cfg.openMs {
        return HalfOpen;
      }
      return Open;
    }

    method RecordSuccess()
      modifies this
      ensures View() == Succeed(old(View()))
    {
      consecutiveFailures := 0;
      circuitOpenedAtMs := None;
      halfOpenInFlight := false;
    }

    method RecordBreakerFailure(seen: int, stamp: int)
      modifies this
      ensures View() == Fail(cfg, old(View()), seen, stamp)
    {
      var state := CurrentState(seen);
      consecutiveFailures := consecutiveFailures + 1;
      if state == HalfOpen {
        circuitOpenedAtMs := Some(stamp);
        halfOpenInFlight := false;
        return;
      }
      if consecutiveFailures >= cfg.failureThreshold && circuitOpenedAtMs == None {
        circuitOpenedAtMs := Some(stamp);
      }
    }

    method GuardCircuit(now: int) returns (admitted: Option<CircuitState>)
      modifies this
      ensures match Guard(cfg, old(View()), now)
              case None => admitted == None && View() == old(View())
              case Some(a) => admitted == Some(a.0) && View() == a.1
    {
      var state := CurrentState(now);
      if state == Open {
        return None;
      }
      if state == HalfOpen {
        if halfOpenInFlight {
          return None;
        }
        halfOpenInFlight := true;
      }
      return Some(state);
    }

    method HandleTerminalError(err: Failure, admittedAs: CircuitState, seen: int, stamp: int)
      modifies this
      ensures View() == GiveUp(cfg, old(View()), err, admittedAs, seen, stamp)
    {
      if CountsTowardBreaker(err) {
        RecordBreakerFailure(seen, stamp);
      } else if admittedAs == HalfOpen {
        halfOpenInFlight := false;
      }
    }

    /** The other requests that run while the current one awaits. */
    method OtherRequests(changes: seq<Change>)
      modifies this
      ensures View() == ChangedAll(cfg, old(View()), changes)
    {
      for i := 0 to |changes|
        invariant View() == ChangedAll(cfg, old(View()), changes[..i])
      {
        assert changes[..i + 1][..i] == changes[..i];
        match changes[i] {
          case Enters(now) => var _ := GuardCircuit(now);
          case Succeeds => RecordSuccess();
          case GivesUp(err, admittedAs, seen, stamp) => HandleTerminalError(err, admittedAs, seen, stamp);
        }
      }
      assert changes[..|changes|] == changes;
    }
  }
}
