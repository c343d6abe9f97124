/**
 * The admin client's token cache under concurrent callers: a cached token, and one shared request
 * for the next. Every await of the fetch is a point where other callers run; the clock never goes back.
 */
module TokenCache {
  import opened Wrappers

  const SAFETY_MARGIN_MS: int := 30000
  const MIN_CACHE_MS: int := 1000

  /**
   * A token: its lifetime runs from when the endpoint issued it, while the client knows only when
   * the answer arrived, and computes from that until when the cache serves it.
   */
  datatype Token = Token(request: nat, issuedAt: int, receivedAt: int, lifetimeMs: int, expiresAt: int)

  /** What the log keeps of a run. */
  datatype Event =
    | RequestSent
    | RequestFailed
    | TokenRejected(request: nat)
    | TokenExpired(request: nat)
    | Served(token: Token, at: int)        // from the cache
    | HandedOver(token: Token, at: int)    // to a caller that waited for the shared promise
    | CallerFailed(request: nat)

  /**
   * `inFlight` is the shared promise, by the number of its request; `outstanding` holds the
   * requests that the endpoint has not answered yet, with the time each was sent; `fetched` has the
   * tokens that promises resolved to, and `waiting` the callers that have not got theirs.
   */
  datatype System = System(
    clock: int,
    cached: Option<Token>,
    inFlight: Option<nat>,
    outstanding: map<nat, int>,
    fetched: map<nat, Token>,
    waiting: multiset<nat>,
    sent: nat,
    log: seq<Event>)

  datatype Step =
    | Tick(now: int)
    | GetToken(now: int)
    | Answered(id: nat, issuedAt: int, lifetimeMs: int, now: int)
    | Failed(id: nat)
    | Finally(id: nat)
    | Resumed(id: nat, now: int)
    | Rejected

  predicate Init(s: System) {
    && s.cached == None && s.inFlight == None && s.outstanding == map[] && s.fetched == map[]
    && s.waiting == multiset{} && s.sent == 0 && s.log == []
  }

  predicate Enabled(s: System, step: Step) {
    match step
    case Tick(now) => s.clock <= now
    case GetToken(now) => s.clock <= now
    case Answered(id, issuedAt, _, now) => id in s.outstanding && s.outstanding[id] <= issuedAt <= now && s.clock <= now
    case Failed(id) => id in s.outstanding
    case Finally(id) => s.inFlight == Some(id) && id !in s.outstanding
    case Resumed(id, now) => id in s.waiting && id !in s.outstanding && s.inFlight != Some(id) && s.clock <= now
    case Rejected => true
  }

  function CacheUntil(now: int, lifetimeMs: int): int {
    now + Max(lifetimeMs - SAFETY_MARGIN_MS, MIN_CACHE_MS)
  }

  predicate IsHit(s: System, now: int) {
    s.cached.Some? && s.cached.value.expiresAt > now
  }

  /** What a step adds to the log. */
  function Added(s: System, step: Step): seq<Event> {
    match step
    case GetToken(now) =>
      if IsHit(s, now) then [Served(s.cached.value, now)]
      else if s.inFlight.Some? then []
      else (if s.cached.Some? then [TokenExpired(s.cached.value.request)] else []) + [RequestSent]
    case Failed(_) => [RequestFailed]
    case Resumed(id, now) => [if id in s.fetched then HandedOver(s.fetched[id], now) else CallerFailed(id)]
    case Rejected => if s.cached.Some? then [TokenRejected(s.cached.value.request)] else []
    case _ => []
  }

  function Next(s: System, step: Step): System
    requires Enabled(s, step)
  {
    match step
    case Tick(now) => s.(clock := now)
    case GetToken(now) =>
      var s' := s.(clock := now, log := s.log + Added(s, step));
      if IsHit(s, now) then s'
      else if s.inFlight.Some? then s'.(waiting := s.waiting + multiset{s.inFlight.value})
      else
        s'.(inFlight := Some(s.sent), outstanding := s.outstanding[s.sent := now],
            waiting := s.waiting + multiset{s.sent}, sent := s.sent + 1)
    case Answered(id, issuedAt, lifetimeMs, now) =>
      var token := Token(id, issuedAt, now, lifetimeMs, CacheUntil(now, lifetimeMs));
      s.(clock := now, cached := Some(token), fetched := s.fetched[id := token], outstanding := s.outstanding - {id})
    case Failed(id) => s.(outstanding := s.outstanding - {id}, log := s.log + Added(s, step))
    case Finally(_) => s.(inFlight := None)
    case Resumed(id, now) => s.(clock := now, waiting := s.waiting - multiset{id}, log := s.log + Added(s, step))
    case Rejected => s.(cached := None, log := s.log + Added(s, step))
  }

  // ----- Runs -----

  ghost predicate IsRun(states: seq<System>, steps: seq<Step>) {
    && |states| == |steps| + 1
    && Init(states[0])
    && forall i | 0 <= i < |steps| :: Enabled(states[i], steps[i]) && states[i + 1] == Next(states[i], steps[i])
  }

  function Count(log: seq<Event>, event: Event): nat {
    multiset(log)[event]
  }

  /** The tokens, by their request numbers, that were found expired. */
  function Expired(log: seq<Event>): set<nat> {
    set e | e in log && e.TokenExpired? :: e.request
  }

  /** The tokens that the admin API rejected while they were cached. */
  function Dropped(log: seq<Event>): set<nat> {
    set e | e in log && e.TokenRejected? :: e.request
  }

  /** Nothing is being fetched, and the cache is empty or holds a token already found expired. */
  predicate NeedsNew(s: System) {
    s.outstanding == map[] && (s.cached.None? || s.cached.value.request in Expired(s.log))
  }

  /** A token that arrived by the time `at`, cached until when its arrival says. */
  predicate IsReceived(t: Token, at: int) {
    t.issuedAt <= t.receivedAt <= at && t.expiresAt == CacheUntil(t.receivedAt, t.lifetimeMs)
  }

  /** The state on its own: one request at a time, and every token received. */
  ghost predicate RequestsOk(s: System) {
    && (forall id | id in s.outstanding :: s.inFlight == Some(id) && id < s.sent)
    && (forall id | id in s.fetched :: IsReceived(s.fetched[id], s.clock) && id < s.sent && id !in s.outstanding)
    && (s.cached.Some? ==>
          var t := s.cached.value; IsReceived(t, s.clock) && t.request < s.sent && t.request !in s.outstanding)
  }

  /** The state and the log: what was given up is not outstanding, and no longer served. */
  ghost predicate TokensOk(s: System) {
    && (forall id | id in Expired(s.log) || id in Dropped(s.log) :: id < s.sent && id !in s.outstanding)
    && (s.cached.Some? ==>
          var t := s.cached.value; t.request !in Dropped(s.log) && (t.request in Expired(s.log) ==> t.expiresAt <= s.clock))
  }

  ghost predicate Coherent(s: System) {
    RequestsOk(s) && TokensOk(s)
  }

  function Allowance(log: seq<Event>): nat {
    1 + Count(log, RequestFailed) + |Dropped(log)| + |Expired(log)|
  }

  ghost predicate PaidFor(s: System) {
    Count(s.log, RequestSent) + (if NeedsNew(s) then 1 else 0) <= Allowance(s.log)
  }

  ghost predicate ServedInTime(s: System) {
    && (forall t, at :: Served(t, at) in s.log ==> IsReceived(t, at) && at < t.expiresAt)
    && (forall t, at :: HandedOver(t, at) in s.log ==> IsReceived(t, at))
  }

  /** The event gives up the token: it was found expired, or the admin API rejected it. */
  predicate GivesUp(e: Event, request: nat) {
    e == TokenExpired(request) || e == TokenRejected(request)
  }

  /** A token once given up is not served from the cache again. */
  ghost predicate NeverAgain(log: seq<Event>) {
    forall i, j | 0 <= i < j < |log| && log[j].Served? :: !GivesUp(log[i], log[j].token.request)
  }

  ghost predicate Inv(s: System) {
    Coherent(s) && PaidFor(s) && ServedInTime(s) && NeverAgain(s.log)
  }

  lemma ExpiredAppended(log: seq<Event>, added: seq<Event>)
    ensures Expired(log + added) == Expired(log) + Expired(added)
    ensures Dropped(log + added) == Dropped(log) + Dropped(added)
  {
    assert forall e :: e in log + added <==> e in log || e in added;
  }

  lemma AddedExpired(s: System, step: Step)
    ensures Expired(Added(s, step)) == if Starts(s, step) && s.cached.Some? then {s.cached.value.request} else {}
    ensures Dropped(Added(s, step)) == if step.Rejected? && s.cached.Some? then {s.cached.value.request} else {}
  {
    if Starts(s, step) && s.cached.Some? {
      assert TokenExpired(s.cached.value.request) in Added(s, step);
    }
    if step.Rejected? && s.cached.Some? {
      assert TokenRejected(s.cached.value.request) in Added(s, step);
    }
  }

  /** The step sends a new request. */
  predicate Starts(s: System, step: Step) {
    step.GetToken? && !IsHit(s, step.now) && s.inFlight.None?
  }

  lemma LogAfter(s: System, step: Step)
    requires Enabled(s, step)
    ensures Next(s, step).log == s.log + Added(s, step)
    ensures Expired(Next(s, step).log)
         == Expired(s.log) + (if Starts(s, step) && s.cached.Some? then {s.cached.value.request} else {})
    ensures Dropped(Next(s, step).log)
         == Dropped(s.log) + (if step.Rejected? && s.cached.Some? then {s.cached.value.request} else {})
  {
    ExpiredAppended(s.log, Added(s, step));
    AddedExpired(s, step);
  }

  lemma StepKeepsRequests(s: System, step: Step)
    requires RequestsOk(s) && Enabled(s, step)
    ensures RequestsOk(Next(s, step))
  {
  }

  lemma StepKeepsTokens(s: System, step: Step)
    requires Coherent(s) && Enabled(s, step)
    ensures TokensOk(Next(s, step))
  {
    LogAfter(s, step);
    hide Expired, Dropped, Added;
  }

  lemma CountAppended(log: seq<Event>, added: seq<Event>, event: Event)
    ensures Count(log + added, event) == Count(log, event) + Count(added, event)
  {
  }

  /** What the count of requests needs to know of a step. */
  lemma StepFacts(s: System, step: Step)
    requires Coherent(s) && Enabled(s, step)
    ensures Starts(s, step) ==> s.outstanding == map[] && Next(s, step).outstanding != map[]
    ensures step.Answered? ==> step.id !in Expired(s.log)
    ensures step.Rejected? && s.cached.Some? ==> s.cached.value.request !in Dropped(s.log)
  {
    hide Expired, Dropped, Added;
    if Starts(s, step) {
      assert s.sent in Next(s, step).outstanding;
    }
  }

  lemma StepKeepsPaidFor(s: System, step: Step)
    requires Coherent(s) && PaidFor(s) && Enabled(s, step)
    ensures PaidFor(Next(s, step))
  {
    var added := Added(s, step);
    StepFacts(s, step);
    LogAfter(s, step);
    CountAppended(s.log, added, RequestSent);
    CountAppended(s.log, added, RequestFailed);
    AddedCounts(s, step);
    hide Count, Expired, Dropped, Coherent, Added;
    var request := if s.cached.Some? then s.cached.value.request else 0;
    OneMore(Expired(s.log), request);
    OneMore(Dropped(s.log), request);
  }

  lemma OneMore(a: set<nat>, x: nat)
    ensures |a + {x}| == |a| + (if x in a then 0 else 1)
  {
    assert x in a ==> a + {x} == a;
  }

  lemma AddedCounts(s: System, step: Step)
    ensures var added := Added(s, step);
            && Count(added, RequestSent) == (if Starts(s, step) then 1 else 0)
            && Count(added, RequestFailed) == (if step.Failed? then 1 else 0)
  {
  }

  lemma StepKeepsServedInTime(s: System, step: Step)
    requires Coherent(s) && ServedInTime(s) && Enabled(s, step)
    ensures ServedInTime(Next(s, step))
  {
    var (s', added) := (Next(s, step), Added(s, step));
    assert s'.log == s.log + added;
    forall t, at | Served(t, at) in s'.log ensures IsReceived(t, at) && at < t.expiresAt {
      assert Served(t, at) in s.log || Served(t, at) in added;
    }
    forall t, at | HandedOver(t, at) in s'.log ensures IsReceived(t, at) {
      assert HandedOver(t, at) in s.log || HandedOver(t, at) in added;
    }
  }

  lemma StepKeepsNeverAgain(s: System, step: Step)
    requires Coherent(s) && NeverAgain(s.log) && Enabled(s, step)
    ensures NeverAgain(Next(s, step).log)
  {
    var log: seq<Event>, added: seq<Event> := s.log, Added(s, step);
    LogAfter(s, step);
    hide Next, PaidFor;
    forall i, j | 0 <= i < j < |log + added| && (log + added)[j].Served?
      ensures !GivesUp((log + added)[i], (log + added)[j].token.request)
    {
      if j >= |log| {
        assert added == [Served(s.cached.value, step.now)];
        var e := log[i];
        assert e in log;
        assert e.TokenExpired? ==> e.request in Expired(log);
        assert e.TokenRejected? ==> e.request in Dropped(log);
      }
    }
  }

  lemma StepKeepsInv(s: System, step: Step)
    requires Inv(s) && Enabled(s, step)
    ensures Inv(Next(s, step))
  {
    hide Next, RequestsOk, TokensOk, PaidFor, ServedInTime, NeverAgain;
    StepKeepsNeverAgain(s, step);
    StepKeepsRequests(s, step);
    StepKeepsTokens(s, step);
    StepKeepsPaidFor(s, step);
    StepKeepsServedInTime(s, step);
  }

  lemma {:induction false} RunKeepsInv(states: seq<System>, steps: seq<Step>, k: nat)
    requires IsRun(states, steps) && k < |states|
    ensures Inv(states[k])
  {
    if k > 0 {
      RunKeepsInv(states, steps, k - 1);
      StepKeepsInv(states[k - 1], steps[k - 1]);
    }
  }

  /** Whatever the callers do, at most one token request awaits an answer. */
  lemma OneRequestAtATime(states: seq<System>, steps: seq<Step>, k: nat)
    requires IsRun(states, steps) && k < |states|
    ensures |states[k].outstanding| <= 1
  {
    var s := states[k];
    RunKeepsInv(states, steps, k);
    if s.outstanding != map[] {
      var id :| id in s.outstanding;
      SmallMap(s.outstanding, id);
    }
  }

  lemma SmallMap(m: map<nat, int>, id: nat)
    requires id in m && forall other | other in m :: other == id
    ensures |m| == 1
  {
    assert m == map[id := m[id]];
  }

  /** Each request but the first is paid for by a failure, a rejected token or a token of its own that expired. */
  lemma RequestsArePaidFor(states: seq<System>, steps: seq<Step>, k: nat)
    requires IsRun(states, steps) && k < |states|
    ensures var log := states[k].log;
            Count(log, RequestSent) <= 1 + Count(log, RequestFailed) + |Dropped(log)| + |Expired(log)|
  {
    RunKeepsInv(states, steps, k);
  }

  /** A token that was found expired, or rejected, is not served from the cache again. */
  lemma GivenUpIsNotServedAgain(states: seq<System>, steps: seq<Step>, k: nat, i: nat, j: nat, t: Token, at: int)
    requires IsRun(states, steps) && k < |states| && i < j < |states[k].log| && states[k].log[j] == Served(t, at)
    ensures states[k].log[i] != TokenExpired(t.request) && states[k].log[i] != TokenRejected(t.request)
  {
    RunKeepsInv(states, steps, k);
  }

  // ----- The bound on the requests is attained -----

  /** Nothing in flight, nobody waiting. */
  predicate IsQuiet(s: System) {
    s.inFlight.None? && s.outstanding == map[] && s.waiting == multiset{}
  }

  predicate Leads(s: System, step: Step, s': System) {
    Enabled(s, step) && s' == Next(s, step)
  }

  lemma Then(states: seq<System>, steps: seq<Step>, step: Step) returns (longer: seq<System>, longerSteps: seq<Step>)
    requires IsRun(states, steps) && Enabled(states[|steps|], step)
    ensures IsRun(longer, longerSteps) && |longer| == |longerSteps| + 1
    ensures longer[|longerSteps|] == Next(states[|steps|], step)
  {
    longer, longerSteps := states + [Next(states[|steps|], step)], steps + [step];
  }

  /** The counts of failures, of rejected and of expired tokens in a log. */
  ghost predicate Tally(log: seq<Event>, sent: nat, failures: nat, dropped: nat, expired: nat) {
    && Count(log, RequestSent) == sent && Count(log, RequestFailed) == failures
    && |Dropped(log)| == dropped && |Expired(log)| == expired
  }

  /** What one more event adds to the counts. */
  lemma TallyGrows(log: seq<Event>, e: Event, sent: nat, failures: nat, dropped: nat, expired: nat)
    requires Tally(log, sent, failures, dropped, expired)
    requires e.TokenRejected? ==> e.request !in Dropped(log)
    requires e.TokenExpired? ==> e.request !in Expired(log)
    ensures Tally(log + [e], sent + (if e == RequestSent then 1 else 0), failures + (if e == RequestFailed then 1 else 0),
                  dropped + (if e.TokenRejected? then 1 else 0), expired + (if e.TokenExpired? then 1 else 0))
  {
    CountAppended(log, [e], RequestSent);
    CountAppended(log, [e], RequestFailed);
    ExpiredAppended(log, [e]);
    OneEvent(e);
    hide Count, Expired, Dropped;
    if e.TokenExpired? {
      OneMore(Expired(log), e.request);
    }
    if e.TokenRejected? {
      OneMore(Dropped(log), e.request);
    }
    assert Expired(log) + {} == Expired(log) && Dropped(log) + {} == Dropped(log);
  }

  lemma OneEvent(e: Event)
    ensures Count([e], RequestSent) == (if e == RequestSent then 1 else 0)
    ensures Count([e], RequestFailed) == (if e == RequestFailed then 1 else 0)
    ensures Expired([e]) == if e.TokenExpired? then {e.request} else {}
    ensures Dropped([e]) == if e.TokenRejected? then {e.request} else {}
  {
    assert forall x :: x in [e] <==> x == e;
  }

  /** Quiet, and the next caller needs a new token: none is cached, or one whose end nobody has noticed yet. */
  ghost predicate IsDue(s: System) {
    && IsQuiet(s)
    && (s.cached.Some? ==> s.cached.value.expiresAt <= s.clock && s.cached.value.request !in Expired(s.log))
  }

  /** The tokens that the next caller will find expired. */
  function Unnoticed(s: System): nat {
    if s.cached.Some? then 1 else 0
  }

  /** The log once the next caller has noticed the expired token, if there is one. */
  function Noticed(s: System): seq<Event> {
    if s.cached.Some? then s.log + [TokenExpired(s.cached.value.request)] else s.log
  }

  /** The step that sends a request: its caller waits alone for it. */
  lemma StartingStep(s: System) returns (s1: System)
    requires IsDue(s)
    ensures Leads(s, GetToken(s.clock), s1)
    ensures s1 == System(s.clock, s.cached, Some(s.sent), map[s.sent := s.clock], s.fetched, multiset{s.sent}, s.sent + 1,
                         Noticed(s) + [RequestSent])
  {
    hide Expired;
    s1 := Next(s, GetToken(s.clock));
  }

  /** The four steps of a request that fails. */
  lemma FailingSteps(s: System) returns (s1: System, s2: System, s3: System, s4: System)
    requires IsDue(s) && s.cached.None? && RequestsOk(s)
    ensures Leads(s, GetToken(s.clock), s1) && Leads(s1, Failed(s.sent), s2)
    ensures Leads(s2, Finally(s.sent), s3) && Leads(s3, Resumed(s.sent, s.clock), s4)
    ensures IsDue(s4) && s4.cached.None? && s4.log == s.log + [RequestSent] + [RequestFailed] + [CallerFailed(s.sent)]
  {
    assert s.sent !in s.fetched;
    s1 := StartingStep(s);
    hide Expired;
    s2 := Next(s1, Failed(s.sent));
    s3 := Next(s2, Finally(s.sent));
    s4 := Next(s3, Resumed(s.sent, s.clock));
  }

  /** One request that fails. */
  lemma FailingRound(states: seq<System>, steps: seq<Step>, sent: nat, failures: nat, dropped: nat, expired: nat)
    returns (longer: seq<System>, longerSteps: seq<Step>)
    requires IsRun(states, steps) && IsDue(states[|steps|]) && states[|steps|].cached.None?
    requires Tally(states[|steps|].log, sent, failures, dropped, expired)
    ensures IsRun(longer, longerSteps) && |longer| == |longerSteps| + 1
    ensures IsDue(longer[|longerSteps|]) && longer[|longerSteps|].cached.None?
    ensures Tally(longer[|longerSteps|].log, sent + 1, failures + 1, dropped, expired)
  {
    var s := states[|steps|];
    var (id, log) := (s.sent, s.log);
    RunKeepsInv(states, steps, |steps|);
    var s1, s2, s3, s4 := FailingSteps(s);
    hide IsRun, Next, Enabled, Tally, Inv, IsDue;
    longer, longerSteps := Then(states, steps, GetToken(s.clock));
    longer, longerSteps := Then(longer, longerSteps, Failed(id));
    longer, longerSteps := Then(longer, longerSteps, Finally(id));
    longer, longerSteps := Then(longer, longerSteps, Resumed(id, s.clock));
    TallyGrows(log, RequestSent, sent, failures, dropped, expired);
    TallyGrows(log + [RequestSent], RequestFailed, sent + 1, failures, dropped, expired);
    TallyGrows(log + [RequestSent] + [RequestFailed], CallerFailed(id), sent + 1, failures + 1, dropped, expired);
  }

  /** The four steps of a request that brings a token of the shortest life. */
  lemma FetchingSteps(s: System, token: Token) returns (s1: System, s2: System, s3: System, s4: System)
    requires IsDue(s) && RequestsOk(s) && token == Token(s.sent, s.clock, s.clock, 0, s.clock + 1000)
    ensures Leads(s, GetToken(s.clock), s1) && Leads(s1, Answered(s.sent, s.clock, 0, s.clock), s2)
    ensures Leads(s2, Finally(s.sent), s3) && Leads(s3, Resumed(s.sent, s.clock), s4)
    ensures IsQuiet(s4) && s4.clock == s.clock && s4.cached == Some(token)
    ensures s4.log == Noticed(s) + [RequestSent] + [HandedOver(token, s.clock)]
  {
    s1 := StartingStep(s);
    hide Expired, IsDue, RequestsOk;
    s2 := Next(s1, Answered(s.sent, s.clock, 0, s.clock));
    s3 := Next(s2, Finally(s.sent));
    s4 := Next(s3, Resumed(s.sent, s.clock));
  }

  lemma FetchedTally(s: System, token: Token, sent: nat, failures: nat, dropped: nat, expired: nat)
    requires Tally(s.log, sent, failures, dropped, expired) && IsDue(s)
    ensures Tally(Noticed(s) + [RequestSent] + [HandedOver(token, s.clock)],
                  sent + 1, failures, dropped, expired + Unnoticed(s))
  {
    hide Tally, Expired;
    var log := Noticed(s);
    if s.cached.Some? {
      TallyGrows(s.log, TokenExpired(s.cached.value.request), sent, failures, dropped, expired);
    }
    TallyGrows(log, RequestSent, sent, failures, dropped, expired + Unnoticed(s));
    TallyGrows(log + [RequestSent], HandedOver(token, s.clock), sent + 1, failures, dropped, expired + Unnoticed(s));
  }

  lemma FetchedIsUnnoticed(s: System, token: Token)
    requires TokensOk(s) && RequestsOk(s) && token.request == s.sent
    ensures token.request !in Expired(Noticed(s) + [RequestSent] + [HandedOver(token, s.clock)])
  {
    var log := Noticed(s);
    if s.cached.Some? {
      ExpiredAppended(s.log, [TokenExpired(s.cached.value.request)]);
      OneEvent(TokenExpired(s.cached.value.request));
    }
    ExpiredAppended(log, [RequestSent]);
    ExpiredAppended(log + [RequestSent], [HandedOver(token, s.clock)]);
    OneEvent(RequestSent);
    OneEvent(HandedOver(token, s.clock));
    hide Expired, Dropped, Count;
  }

  /** One request that brings a token of the shortest life. */
  lemma FetchingRound(states: seq<System>, steps: seq<Step>, sent: nat, failures: nat, dropped: nat, expired: nat)
    returns (longer: seq<System>, longerSteps: seq<Step>)
    requires IsRun(states, steps) && IsDue(states[|steps|])
    requires Tally(states[|steps|].log, sent, failures, dropped, expired)
    ensures IsRun(longer, longerSteps) && |longer| == |longerSteps| + 1
    ensures var (s, s') := (states[|steps|], longer[|longerSteps|]);
            && IsQuiet(s') && s'.cached.Some? && s'.cached.value.request == s.sent
            && s'.cached.value.expiresAt == s'.clock + 1000 && s'.cached.value.request !in Expired(s'.log)
            && Tally(s'.log, sent + 1, failures, dropped, expired + Unnoticed(s))
  {
    var s := states[|steps|];
    var (id, now) := (s.sent, s.clock);
    var token := Token(id, now, now, 0, now + 1000);
    RunKeepsInv(states, steps, |steps|);
    var s1, s2, s3, s4 := FetchingSteps(s, token);
    FetchedIsUnnoticed(s, token);
    FetchedTally(s, token, sent, failures, dropped, expired);
    hide IsRun, Next, Enabled, Tally, Inv, IsDue, Expired;
    longer, longerSteps := Then(states, steps, GetToken(now));
    longer, longerSteps := Then(longer, longerSteps, Answered(id, now, 0, now));
    longer, longerSteps := Then(longer, longerSteps, Finally(id));
    longer, longerSteps := Then(longer, longerSteps, Resumed(id, now));
  }

  /** One request whose token the admin API rejects. */
  lemma RejectedRound(states: seq<System>, steps: seq<Step>, sent: nat, failures: nat, dropped: nat, expired: nat)
    returns (longer: seq<System>, longerSteps: seq<Step>)
    requires IsRun(states, steps) && IsDue(states[|steps|]) && states[|steps|].cached.None?
    requires Tally(states[|steps|].log, sent, failures, dropped, expired)
    ensures IsRun(longer, longerSteps) && |longer| == |longerSteps| + 1
    ensures IsDue(longer[|longerSteps|]) && longer[|longerSteps|].cached.None?
    ensures Tally(longer[|longerSteps|].log, sent + 1, failures, dropped + 1, expired)
  {
    longer, longerSteps := FetchingRound(states, steps, sent, failures, dropped, expired);
    var s := longer[|longerSteps|];
    RunKeepsInv(longer, longerSteps, |longerSteps|);
    TallyGrows(s.log, TokenRejected(s.cached.value.request), sent + 1, failures, dropped, expired);
    longer, longerSteps := Then(longer, longerSteps, Rejected);
  }

  /** One request whose token expires unnoticed. */
  lemma ExpiringRound(states: seq<System>, steps: seq<Step>, sent: nat, failures: nat, dropped: nat, expired: nat)
    returns (longer: seq<System>, longerSteps: seq<Step>)
    requires IsRun(states, steps) && IsDue(states[|steps|])
    requires Tally(states[|steps|].log, sent, failures, dropped, expired)
    ensures IsRun(longer, longerSteps) && |longer| == |longerSteps| + 1
    ensures IsDue(longer[|longerSteps|]) && longer[|longerSteps|].cached.Some?
    ensures Tally(longer[|longerSteps|].log, sent + 1, failures, dropped, expired + Unnoticed(states[|steps|]))
  {
    RunKeepsInv(states, steps, |steps|);
    longer, longerSteps := FetchingRound(states, steps, sent, failures, dropped, expired);
    var s := longer[|longerSteps|];
    RunKeepsInv(longer, longerSteps, |longerSteps|);
    longer, longerSteps := Then(longer, longerSteps, Tick(s.clock + 1000));
  }
  lemma NextCallStarts(s: System)
    requires IsDue(s)
    ensures Enabled(s, GetToken(s.clock)) && Next(s, GetToken(s.clock)).log == Noticed(s) + [RequestSent]
  {
    hide Expired;
  }

  /** For all numbers of failures, rejections and expiries some run sends as many requests as they allow. */
  lemma {:induction false} BoundIsAttained(failures: nat, dropped: nat, expired: nat)
    returns (states: seq<System>, steps: seq<Step>)
    ensures IsRun(states, steps) && |states| == |steps| + 1
    ensures Tally(states[|steps|].log, 1 + failures + dropped + expired, failures, dropped, expired)
  {
    states, steps := Rounds(failures, dropped, expired);
    var s := states[|steps|];
    var all := failures + dropped + expired;
    RunKeepsInv(states, steps, |steps|);
    NextCallStarts(s);
    hide IsRun, Next, Enabled, Tally, Inv, Expired, Dropped;
    states, steps := Then(states, steps, GetToken(s.clock));
    if s.cached.Some? {
      TallyGrows(s.log, TokenExpired(s.cached.value.request), all, failures, dropped, expired - 1);
      TallyGrows(s.log + [TokenExpired(s.cached.value.request)], RequestSent, all, failures, dropped, expired);
    } else {
      TallyGrows(s.log, RequestSent, all, failures, dropped, expired);
    }
  }

  lemma {:induction false} Rounds(failures: nat, dropped: nat, expired: nat)
    returns (states: seq<System>, steps: seq<Step>)
    ensures IsRun(states, steps) && |states| == |steps| + 1 && IsDue(states[|steps|])
    ensures states[|steps|].cached.Some? <==> expired > 0
    ensures Tally(states[|steps|].log, failures + dropped + expired, failures, dropped, Max(0, expired - 1))
  {
    hide IsRun, Tally;
    if expired > 0 {
      states, steps := Rounds(failures, dropped, expired - 1);
      states, steps := ExpiringRound(states, steps, failures + dropped + expired - 1, failures, dropped, Max(0, expired - 2));
    } else if dropped > 0 {
      states, steps := Rounds(failures, dropped - 1, 0);
      states, steps := RejectedRound(states, steps, failures + dropped - 1, failures, dropped - 1, 0);
    } else if failures > 0 {
      states, steps := Rounds(failures - 1, 0, 0);
      states, steps := FailingRound(states, steps, failures - 1, failures - 1, 0, 0);
    } else {
      states, steps := NothingYet();
    }
  }

  lemma NothingYet() returns (states: seq<System>, steps: seq<Step>)
    ensures IsRun(states, steps) && |states| == |steps| + 1
    ensures IsDue(states[|steps|]) && states[|steps|].cached.None? && Tally(states[|steps|].log, 0, 0, 0, 0)
  {
    states, steps := [System(0, None, None, map[], map[], multiset{}, 0, [])], [];
    assert Expired([]) == {} && Dropped([]) == {};
  }

  /** A request fails only while it waits for its answer, and its callers go on only after that. */
  lemma AnswersComeFirst(s: System, id: nat, now: int)
    ensures Enabled(s, Failed(id)) ==> id in s.outstanding
    ensures Enabled(s, Resumed(id, now)) ==> id !in s.outstanding && s.inFlight != Some(id)
  {
  }

  // ----- Every caller gets one outcome -----

  predicate IsOutcome(e: Event) {
    e.Served? || e.HandedOver? || e.CallerFailed?
  }

  function Outcomes(log: seq<Event>): nat {
    if log == [] then 0 else Outcomes(log[..|log| - 1]) + (if IsOutcome(log[|log| - 1]) then 1 else 0)
  }

  function Calls(steps: seq<Step>): nat {
    if steps == [] then 0 else Calls(steps[..|steps| - 1]) + (if steps[|steps| - 1].GetToken? then 1 else 0)
  }

  lemma {:induction false} OutcomesAppended(log: seq<Event>, added: seq<Event>)
    ensures Outcomes(log + added) == Outcomes(log) + Outcomes(added)
  {
    if added == [] {
      assert log + added == log;
    } else {
      assert (log + added)[..|log + added| - 1] == log + added[..|added| - 1];
      OutcomesAppended(log, added[..|added| - 1]);
    }
  }

  lemma OutcomesOfOne(e: Event)
    ensures Outcomes([e]) == if IsOutcome(e) then 1 else 0
  {
    assert [e][..0] == [];
  }

  lemma AddedOutcomes(s: System, step: Step)
    ensures Outcomes(Added(s, step)) == if (step.GetToken? && IsHit(s, step.now)) || step.Resumed? then 1 else 0
  {
    var added := Added(s, step);
    if Starts(s, step) && s.cached.Some? {
      assert added == [added[0]] + [RequestSent];
      OutcomesAppended([added[0]], [RequestSent]);
      OutcomesOfOne(added[0]);
      OutcomesOfOne(RequestSent);
    } else if added != [] {
      OutcomesOfOne(added[0]);
      assert added == [added[0]];
    }
  }

  lemma StepSettles(s: System, step: Step)
    requires Enabled(s, step)
    ensures Outcomes(Next(s, step).log) + |Next(s, step).waiting|
         == Outcomes(s.log) + |s.waiting| + (if step.GetToken? then 1 else 0)
  {
    LogAfter(s, step);
    OutcomesAppended(s.log, Added(s, step));
    AddedOutcomes(s, step);
    hide Outcomes, Added, Expired, Dropped;
  }

  /** No caller is forgotten and none is answered twice. */
  lemma {:induction false} EveryCallHasOneOutcome(states: seq<System>, steps: seq<Step>, k: nat)
    requires IsRun(states, steps) && k < |states|
    ensures Calls(steps[..k]) == Outcomes(states[k].log) + |states[k].waiting|
  {
    if k > 0 {
      EveryCallHasOneOutcome(states, steps, k - 1);
      StepSettles(states[k - 1], steps[k - 1]);
      assert steps[..k][..k - 1] == steps[..k - 1];
    }
  }

  // ----- What is left of a token's life -----

  /** How long the answer took to arrive. */
  function Delay(t: Token): int {
    t.receivedAt - t.issuedAt
  }

  /** What is left of a served token's life: the margin, less what the answer took to arrive. */
  lemma ServedTokensHaveMargin(states: seq<System>, steps: seq<Step>, k: nat, t: Token, at: int)
    requires IsRun(states, steps) && k < |states| && Served(t, at) in states[k].log
    ensures t.lifetimeMs >= 31000 ==> at + 30000 - (t.receivedAt - t.issuedAt) < t.issuedAt + t.lifetimeMs
    ensures t.lifetimeMs < 31000 ==> at < t.receivedAt + 1000
  {
    RunKeepsInv(states, steps, k);
  }

  /** A token that reached its caller at `at` was still alive then. */
  predicate IsAlive(t: Token, at: int) {
    at < t.issuedAt + t.lifetimeMs
  }

  /** Of this lifetime, and not longer than `delay` on its way to the cache. */
  predicate ArrivedWithin(t: Token, lifetimeMs: int, delay: nat) {
    t.lifetimeMs == lifetimeMs && Delay(t) <= delay
  }

  /** Everyone is given a living token, those waiting included if `delay` covers their resumption too. */
  ghost predicate NeverServedDead(lifetimeMs: int, delay: nat) {
    forall states: seq<System>, steps: seq<Step>, t, at
      | IsRun(states, steps) && ArrivedWithin(t, lifetimeMs, delay) ::
      && (Served(t, at) in states[|steps|].log ==> IsAlive(t, at))
      && (HandedOver(t, at) in states[|steps|].log && at - t.issuedAt <= delay ==> IsAlive(t, at))
  }

  /**
   * With answers that take up to `delay` to arrive, no run gives out a token of some lifetime after
   * its end iff the delay is within the margin, and the lifetime outlasts it by the minimum.
   */
  lemma NeverServedDeadIff(lifetimeMs: int, delay: nat)
    ensures NeverServedDead(lifetimeMs, delay) <==> delay <= 30000 && delay + 1000 <= lifetimeMs
  {
    if delay <= 30000 && delay + 1000 <= lifetimeMs {
      forall states: seq<System>, steps: seq<Step>, t, at
        | IsRun(states, steps) && ArrivedWithin(t, lifetimeMs, delay)
        ensures Served(t, at) in states[|steps|].log ==> IsAlive(t, at)
        ensures HandedOver(t, at) in states[|steps|].log && at - t.issuedAt <= delay ==> IsAlive(t, at)
      {
        if Served(t, at) in states[|steps|].log {
          ServedTokensHaveMargin(states, steps, |steps|, t, at);
        }
      }
    } else {
      var states, steps, t := LastMomentIsServed(lifetimeMs, delay);
      assert Served(t, t.expiresAt - 1) in states[|steps|].log && ArrivedWithin(t, lifetimeMs, delay);
      assert !IsAlive(t, t.expiresAt - 1);
    }
  }

  /** A run that serves a token, which took `delay` to arrive, at the last moment the cache holds it. */
  lemma LastMomentIsServed(lifetimeMs: int, delay: nat) returns (states: seq<System>, steps: seq<Step>, t: Token)
    ensures t == Token(0, 0, delay, lifetimeMs, CacheUntil(delay, lifetimeMs))
    ensures IsRun(states, steps) && Served(t, t.expiresAt - 1) in states[|steps|].log
  {
    t := Token(0, 0, delay, lifetimeMs, CacheUntil(delay, lifetimeMs));
    var at := t.expiresAt - 1;
    var s0 := System(0, None, None, map[], map[], multiset{}, 0, []);
    var s1 := System(0, None, Some(0), map[0 := 0], map[], multiset{0}, 1, [RequestSent]);
    var s2 := System(delay, Some(t), Some(0), map[], map[0 := t], multiset{0}, 1, [RequestSent]);
    var s3 := s2.(inFlight := None);
    var s4 := s3.(clock := at, log := [RequestSent, Served(t, at)]);
    var (first, answered, cleared, last) := (GetToken(0), Answered(0, 0, lifetimeMs, delay), Finally(0), GetToken(at));
    states, steps := [s0, s1, s2, s3, s4], [first, answered, cleared, last];
    assert Enabled(s0, first) && Next(s0, first) == s1;
    assert Enabled(s1, answered) && Next(s1, answered) == s2;
    assert Enabled(s2, cleared) && Next(s2, cleared) == s3;
    assert Enabled(s3, last) && Next(s3, last) == s4;
    hide Next, Enabled, CacheUntil;
  }
}
