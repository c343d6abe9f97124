/**
 * One call of the admin client: token, send, interpretation of the response, and the retry loop.
 * `AdminRequest` is the loop itself. Other requests may change the breaker at each of its awaits.
 */
module AdminRequests {
  import opened Wrappers
  import opened Numerals
  import opened Breaker

  datatype Body = Broken | Empty | Json | NotJson

  datatype Response = Response(status: int, location: bool, body: Body)

  datatype TokenProblem = Refused(status: int) | Unreachable | Garbled

  /** What happened in one attempt. Only `NoToken` sends nothing to the admin API. */
  datatype Attempt = NoToken(problem: TokenProblem) | SendFailed | Replied(res: Response)

  function TokenFailure(p: TokenProblem): Failure {
    match p
    case Refused(status) => TokenStatus(status)
    case Unreachable => Network
    case Garbled => MalformedJson
  }

  predicate IsOk(status: int) {
    200 <= status < 300
  }

  /** None when the attempt produced a result. */
  function Interpret(res: Response): Option<Failure> {
    if res.status == 401 then Some(AdminStatus(401))
    else if res.status == 201 && res.location then None
    else if !IsOk(res.status) then Some(AdminStatus(res.status))
    else if res.status == 204 then None
    else match res.body
      case Broken => Some(Network)
      case NotJson => Some(MalformedJson)
      case Empty => None
      case Json => None
  }

  function OutcomeOf(a: Attempt): Option<Failure> {
    match a
    case NoToken(p) => Some(TokenFailure(p))
    case SendFailed => Some(Network)
    case Replied(res) => Interpret(res)
  }

  predicate IsRetryable(err: Failure, post: bool) {
    match err
    case MalformedJson => false
    case TokenStatus(_) => false
    case AdminStatus(status) => status == 401 || status == 429 || (IsServerError(status) && !post)
    case Network => !post
  }

  // ----- The promised retry policy, stated on what went over the wire -----

  /** A 2xx whose body is read: neither a 204 nor a 201 that names a location. */
  predicate BodyIsRead(res: Response) {
    200 <= res.status <= 299 && res.status != 204 && !(res.status == 201 && res.location)
  }

  predicate ReadBroke(res: Response) {
    BodyIsRead(res) && res.body == Broken
  }

  predicate NetworkFailed(a: Attempt) {
    match a
    case NoToken(p) => p == Unreachable
    case SendFailed => true
    case Replied(res) => ReadBroke(res)
  }

  predicate RepliedWith(a: Attempt, status: int) {
    a.Replied? && a.res.status == status
  }

  /** POST goes again only after 401 or 429; other methods also after 5xx and network failures. */
  predicate MayGoAgain(post: bool, a: Attempt) {
    || RepliedWith(a, 401)
    || RepliedWith(a, 429)
    || (!post && (NetworkFailed(a) || (a.Replied? && 500 <= a.res.status <= 599)))
  }

  /** A 2xx that holds a result: no body is wanted, or there is none, or it is JSON. */
  predicate HoldsResult(a: Attempt) {
    && a.Replied?
    && 200 <= a.res.status <= 299
    && (BodyIsRead(a.res) ==> a.res.body == Empty || a.res.body == Json)
  }

  /** What the breaker is there for: the network, 5xx of either endpoint, and bodies that are no JSON. */
  predicate CountsOnWire(a: Attempt) {
    match a
    case NoToken(p) => p == Unreachable || p == Garbled || (p.Refused? && 500 <= p.status <= 599)
    case SendFailed => true
    case Replied(res) => 500 <= res.status <= 599 || (BodyIsRead(res) && (res.body == Broken || res.body == NotJson))
  }

  /** What an attempt means to the caller and to the breaker, on the wire. */
  lemma OutcomeOnWire(a: Attempt)
    ensures OutcomeOf(a).None? <==> HoldsResult(a)
    ensures OutcomeOf(a).Some? ==> (CountsTowardBreaker(OutcomeOf(a).value) <==> CountsOnWire(a))
    ensures a.Replied? && !(200 <= a.res.status <= 299) ==> OutcomeOf(a) == Some(AdminStatus(a.res.status))
    ensures a.NoToken? && a.problem.Refused? ==> OutcomeOf(a) == Some(TokenStatus(a.problem.status))
  {
  }

  lemma RetryPolicy(post: bool, a: Attempt)
    ensures MayGoAgain(post, a) <==> OutcomeOf(a).Some? && IsRetryable(OutcomeOf(a).value, post)
  {
    match a
    case NoToken(_) =>
    case SendFailed =>
    case Replied(res) => assert ReadBroke(res) ==> Interpret(res) == Some(Network);
  }

  /** A trace the policy allows, complete or still going. */
  ghost predicate Allowed(cfg: Config, post: bool, trace: seq<Attempt>) {
    && |trace| <= Max(0, cfg.maxAttempts)
    && forall i | 0 <= i < |trace| - 1 :: MayGoAgain(post, trace[i])
  }

  /** The trace went on for exactly as long as the policy says. */
  ghost predicate Complete(cfg: Config, post: bool, trace: seq<Attempt>) {
    && Allowed(cfg, post, trace)
    && (|trace| == Max(0, cfg.maxAttempts) || (trace != [] && !MayGoAgain(post, trace[|trace| - 1])))
  }

  function Sends(trace: seq<Attempt>): nat {
    if trace == [] then 0 else (if trace[0].NoToken? then 0 else 1) + Sends(trace[1..])
  }

  lemma {:induction false} SendsAtMostAttempts(trace: seq<Attempt>)
    ensures Sends(trace) <= |trace|
  {
    if trace != [] {
      SendsAtMostAttempts(trace[1..]);
    }
  }

  /** One more attempt is one more send exactly if it got its token. */
  lemma {:induction false} SendsSnoc(trace: seq<Attempt>, a: Attempt)
    ensures Sends(trace + [a]) == Sends(trace) + (if a.SendFailed? || a.Replied? then 1 else 0)
  {
    if trace != [] {
      assert (trace + [a])[1..] == trace[1..] + [a];
      SendsSnoc(trace[1..], a);
    }
  }

  /** A POST trace reaches the admin API in every attempt but possibly the last one. */
  lemma {:induction false} PostSendsEachTime(cfg: Config, trace: seq<Attempt>)
    requires Allowed(cfg, true, trace)
    ensures |trace| - 1 <= Sends(trace) <= Max(0, cfg.maxAttempts)
    decreases trace
  {
    SendsAtMostAttempts(trace);
    if |trace| > 1 {
      assert MayGoAgain(true, trace[0]);
      PostSendsEachTime(cfg, trace[1..]);
    }
  }

  /** The header comment promises one retry on 401; the loop makes one for every attempt left. */
  lemma Post401IsRetriedEveryTime(cfg: Config, trace: seq<Attempt>)
    requires forall i | 0 <= i < |trace| :: RepliedWith(trace[i], 401)
    ensures Complete(cfg, true, trace) <==> |trace| == Max(0, cfg.maxAttempts)
  {
    if trace != [] {
      assert RepliedWith(trace[|trace| - 1], 401);
    }
  }

  // ----- Backoff -----

  type Draw = r: real | 0.0 <= r < 1.0 witness 0.0

  /** Equal jitter: half the window, plus a random share of the other half, rounded down. */
  function Jittered(window: int, random: Draw): int {
    var half := window as real / 2.0;
    (half + random * half).Floor
  }

  function BackoffMs(cfg: Config, attempt: nat, random: Draw): int
    requires attempt >= 1
  {
    Jittered(Min(cfg.initialBackoffMs * Pow2(attempt - 1), cfg.maxBackoffMs), random)
  }

  lemma JitterIsAtMost(half: real, random: real)
    requires half >= 0.0 && 0.0 <= random < 1.0
    ensures 0.0 <= random * half <= half
  {
    assert (1.0 - random) * half >= 0.0;
  }

  lemma JitterBounds(window: int, random: Draw)
    requires window >= 0
    ensures window / 2 <= Jittered(window, random) <= window
  {
    var half := window as real / 2.0;
    var jitter := random * half;
    JitterIsAtMost(half, random);
    assert half <= half + jitter <= half + half;
    assert half + half == window as real;
  }

  function Sleeps(cfg: Config, draws: seq<Draw>): (sleeps: seq<int>)
    ensures |sleeps| == |draws|
  {
    if draws == [] then []
    else Sleeps(cfg, draws[..|draws| - 1]) + [BackoffMs(cfg, |draws|, draws[|draws| - 1])]
  }

  function Sum(s: seq<int>): int {
    if s == [] then 0 else Sum(s[..|s| - 1]) + s[|s| - 1]
  }

  lemma BackoffBounds(cfg: Config, attempt: nat, random: Draw)
    requires cfg.initialBackoffMs >= 0 && cfg.maxBackoffMs >= 0 && attempt >= 1
    ensures 0 <= BackoffMs(cfg, attempt, random) <= cfg.maxBackoffMs
    ensures BackoffMs(cfg, attempt, random) <= cfg.initialBackoffMs * Pow2(attempt - 1)
  {
    var window := cfg.initialBackoffMs * Pow2(attempt - 1);
    assert window >= 0;
    JitterBounds(Min(window, cfg.maxBackoffMs), random);
  }

  lemma Distribute(m: int, a: int, b: int)
    ensures m * a + m * b == m * (a + b)
  {
  }

  lemma {:induction false} SleepWithinHardCap(cfg: Config, draws: seq<Draw>)
    requires cfg.initialBackoffMs >= 0 && cfg.maxBackoffMs >= 0
    ensures 0 <= Sum(Sleeps(cfg, draws)) <= cfg.maxBackoffMs * |draws|
  {
    if draws != [] {
      var n := |draws| - 1;
      SleepWithinHardCap(cfg, draws[..n]);
      BackoffBounds(cfg, n + 1, draws[n]);
      SumSnoc(Sleeps(cfg, draws[..n]), BackoffMs(cfg, n + 1, draws[n]));
      Distribute(cfg.maxBackoffMs, n, 1);
    }
  }

  lemma {:induction false} SleepWithinExponentialCap(cfg: Config, draws: seq<Draw>)
    requires cfg.initialBackoffMs >= 0 && cfg.maxBackoffMs >= 0
    ensures Sum(Sleeps(cfg, draws)) <= cfg.initialBackoffMs * (Pow2(|draws|) - 1)
  {
    if draws != [] {
      var n := |draws| - 1;
      SleepWithinExponentialCap(cfg, draws[..n]);
      BackoffBounds(cfg, n + 1, draws[n]);
      SumSnoc(Sleeps(cfg, draws[..n]), BackoffMs(cfg, n + 1, draws[n]));
      Distribute(cfg.initialBackoffMs, Pow2(n) - 1, Pow2(n));
    }
  }

  lemma SumSnoc(s: seq<int>, x: int)
    ensures Sum(s + [x]) == Sum(s) + x
  {
    assert (s + [x])[..|s|] == s;
  }

  // ----- The loop -----

  /** One turn of the loop: the attempt, its backoff draw, and what others did meanwhile. */
  datatype Turn = Turn(attempt: Attempt, duringAttempt: seq<Change>, random: Draw, duringSleep: seq<Change>)

  datatype Verdict = CircuitOpen | Returned | Threw(err: Failure) | NeverTried

  function Attempts(script: seq<Turn>): (trace: seq<Attempt>)
    ensures |trace| == |script| && forall i | 0 <= i < |script| :: trace[i] == script[i].attempt
  {
    seq(|script|, i requires 0 <= i < |script| => script[i].attempt)
  }

  function Draws(script: seq<Turn>): (draws: seq<Draw>)
    ensures |draws| == |script| && forall i | 0 <= i < |script| :: draws[i] == script[i].random
  {
    seq<Draw>(|script|, i requires 0 <= i < |script| => script[i].random)
  }

  lemma SleepsExtend(cfg: Config, script: seq<Turn>)
    requires script != []
    ensures Sleeps(cfg, Draws(script))
         == Sleeps(cfg, Draws(script[..|script| - 1])) + [BackoffMs(cfg, |script|, script[|script| - 1].random)]
  {
    assert Draws(script)[..|script| - 1] == Draws(script[..|script| - 1]);
  }

  /** The breaker after all turns of `script`, the others having run during each of them. */
  function AfterTurns(cfg: Config, entered: Snapshot, script: seq<Turn>): Snapshot
    decreases |script|, 1
  {
    if script == [] then entered
    else ChangedAll(cfg, WhenSettled(cfg, entered, script), script[|script| - 1].duringSleep)
  }

  /** The breaker when the attempt of the last turn settles. */
  function WhenSettled(cfg: Config, entered: Snapshot, script: seq<Turn>): Snapshot
    decreases |script|, 0
  {
    if script == [] then entered
    else ChangedAll(cfg, AfterTurns(cfg, entered, script[..|script| - 1]), script[|script| - 1].duringAttempt)
  }

  /** What the caller gets from a complete trace; an empty one ends in the final `throw`. */
  function Concluded(trace: seq<Attempt>): Verdict {
    if trace == [] then NeverTried
    else match OutcomeOf(trace[|trace| - 1])
      case None => Returned
      case Some(err) => Threw(err)
  }

  function Settled(cfg: Config, b: Snapshot, v: Verdict, admittedAs: CircuitState, seen: int, stamp: int): Snapshot {
    match v
    case CircuitOpen => b
    case Returned => Succeed(b)
    case Threw(err) => GiveUp(cfg, b, err, admittedAs, seen, stamp)
    case NeverTried => Fail(cfg, b, seen, stamp)
  }

  method RunAttempt(breaker: CircuitBreaker, turn: Turn) returns (outcome: Option<Failure>)
    modifies breaker
    ensures outcome == OutcomeOf(turn.attempt)
    ensures breaker.View() == ChangedAll(breaker.cfg, old(breaker.View()), turn.duringAttempt)
  {
    breaker.OtherRequests(turn.duringAttempt);
    outcome := OutcomeOf(turn.attempt);
  }

  method ComputeBackoffMs(cfg: Config, attempt: nat, random: Draw) returns (ms: int)
    requires attempt >= 1
    ensures ms == BackoffMs(cfg, attempt, random)
  {
    var base := Min(cfg.initialBackoffMs * Pow2(attempt - 1), cfg.maxBackoffMs);
    var half := base as real / 2.0;
    ms := (half + random * half).Floor;
  }

  /** The body of the loop; None means it goes round again after sleeping for `delay`. */
  method TakeTurn(breaker: CircuitBreaker, post: bool, admittedAs: CircuitState, turn: Turn, attempt: nat,
                  seen: int, stamp: int)
    returns (verdict: Option<Verdict>, delay: int)
    requires 1 <= attempt <= breaker.cfg.maxAttempts
    modifies breaker
    ensures verdict.None? <==> MayGoAgain(post, turn.attempt) && attempt < breaker.cfg.maxAttempts
    ensures verdict.None? ==>
      && breaker.View() == ChangedAll(breaker.cfg, ChangedAll(breaker.cfg, old(breaker.View()), turn.duringAttempt),
                                      turn.duringSleep)
      && delay == BackoffMs(breaker.cfg, attempt, turn.random)
    ensures verdict.Some? ==>
      && verdict.value == Concluded([turn.attempt])
      && breaker.View() == Settled(breaker.cfg, ChangedAll(breaker.cfg, old(breaker.View()), turn.duringAttempt),
                                   verdict.value, admittedAs, seen, stamp)
  {
    RetryPolicy(post, turn.attempt);
    delay := 0;
    var outcome := RunAttempt(breaker, turn);
    if outcome == None {
      breaker.RecordSuccess();
      return Some(Returned), delay;
    }
    if !IsRetryable(outcome.value, post) || attempt >= breaker.cfg.maxAttempts {
      breaker.HandleTerminalError(outcome.value, admittedAs, seen, stamp);
      return Some(Threw(outcome.value)), delay;
    }
    delay := ComputeBackoffMs(breaker.cfg, attempt, turn.random);
    breaker.OtherRequests(turn.duringSleep);
    return None, delay;
  }

  lemma OneTurnMore(cfg: Config, entered: Snapshot, script: seq<Turn>, k: nat)
    requires k < |script|
    ensures var settled := WhenSettled(cfg, entered, script[..k + 1]);
            && settled == ChangedAll(cfg, AfterTurns(cfg, entered, script[..k]), script[k].duringAttempt)
            && AfterTurns(cfg, entered, script[..k + 1]) == ChangedAll(cfg, settled, script[k].duringSleep)
  {
    hide ChangedAll;
    assert script[..k + 1][..k] == script[..k];
  }

  method RetryLoop(breaker: CircuitBreaker, post: bool, admittedAs: CircuitState, script: seq<Turn>,
                   seen: int, stamp: int)
    returns (verdict: Verdict, trace: seq<Attempt>, sleeps: seq<int>)
    requires |script| >= breaker.cfg.maxAttempts
    modifies breaker
    ensures |trace| <= |script| && trace == Attempts(script[..|trace|]) && Complete(breaker.cfg, post, trace)
    ensures verdict == Concluded(trace)
    ensures sleeps == Sleeps(breaker.cfg, Draws(script[..Max(0, |trace| - 1)]))
    ensures breaker.View() == Settled(breaker.cfg, WhenSettled(breaker.cfg, old(breaker.View()), script[..|trace|]),
                                      verdict, admittedAs, seen, stamp)
  {
    hide OutcomeOf, MayGoAgain, BackoffMs, ChangedAll, GiveUp, Fail, Sleeps;
    ghost var cfg, entered := breaker.cfg, breaker.View();
    trace, sleeps := [], [];
    var attempt := 0;
    while attempt < breaker.cfg.maxAttempts
      invariant 0 <= attempt <= |script|
      invariant attempt == 0 || attempt < cfg.maxAttempts
      invariant trace == Attempts(script[..attempt])
      invariant forall i | 0 <= i < attempt :: MayGoAgain(post, trace[i])
      invariant sleeps == Sleeps(cfg, Draws(script[..attempt]))
      invariant breaker.View() == AfterTurns(cfg, entered, script[..attempt])
    {
      var turn := script[attempt];
      attempt := attempt + 1;
      assert script[..attempt][..attempt - 1] == script[..attempt - 1];
      OneTurnMore(cfg, entered, script, attempt - 1);
      trace := trace + [turn.attempt];
      var decided, delay := TakeTurn(breaker, post, admittedAs, turn, attempt, seen, stamp);
      if decided.Some? {
        return decided.value, trace, sleeps;
      }
      SleepsExtend(cfg, script[..attempt]);
      sleeps := sleeps + [delay];
    }
    breaker.RecordBreakerFailure(seen, stamp);
    return NeverTried, trace, sleeps;
  }

  method AdminRequest(breaker: CircuitBreaker, post: bool, now: int, script: seq<Turn>, seen: int, stamp: int)
    returns (verdict: Verdict, trace: seq<Attempt>, sleeps: seq<int>)
    requires |script| >= breaker.cfg.maxAttempts
    modifies breaker
    // Refused at the door: nothing is sent and nothing changes.
    ensures Guard(breaker.cfg, old(breaker.View()), now).None? ==>
      verdict == CircuitOpen && trace == [] && sleeps == [] && breaker.View() == old(breaker.View())
    // Otherwise the policy and the script fix the trace, the last attempt fixes the verdict, and the
    // breaker saw this request's admission, the others' changes and this request's end.
    ensures Guard(breaker.cfg, old(breaker.View()), now).Some? ==>
      var (admittedAs, entered) := Guard(breaker.cfg, old(breaker.View()), now).value;
      && |trace| <= |script| && trace == Attempts(script[..|trace|])
      && Complete(breaker.cfg, post, trace)
      && verdict == Concluded(trace)
      && sleeps == Sleeps(breaker.cfg, Draws(script[..Max(0, |trace| - 1)]))
      && breaker.View() == Settled(breaker.cfg, WhenSettled(breaker.cfg, entered, script[..|trace|]),
                                   verdict, admittedAs, seen, stamp)
  {
    var admitted := breaker.GuardCircuit(now);
    if admitted == None {
      return CircuitOpen, [], [];
    }
    verdict, trace, sleeps := RetryLoop(breaker, post, admitted.value, script, seen, stamp);
  }

  /** The script and the policy leave no choice: two complete traces of one script are equal. */
  lemma CompleteTraceIsUnique(cfg: Config, post: bool, script: seq<Turn>, m: nat, n: nat)
    requires m <= |script| && Complete(cfg, post, Attempts(script[..m]))
    requires n <= |script| && Complete(cfg, post, Attempts(script[..n]))
    ensures m == n
  {
    var s, t := Attempts(script[..m]), Attempts(script[..n]);
    assert forall i | 0 <= i < Min(m, n) :: s[i] == t[i];
  }
}
