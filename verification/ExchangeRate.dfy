/** Exchange rates: a rates table first, then a cache with negative entries, then a remote fetch. */
module ExchangeRate {
  import opened Wrappers
  import opened Text
  import opened Numerals
  import Calendar
  import Amounts

  const MS_PER_DAY: int := 86400000

  function NormalizeCurrency(currency: string): string {
    Upper(Trim(currency))
  }

  function ParseRate(value: Num): Option<real> {
    if value.Finite? && value.value > 0.0 then Some(value.value) else None
  }

  /** `rate.toFixed(8)`: the nearest multiple of 10^-8, halves upwards. */
  function StoredRate(rate: real): real {
    Amounts.Round(rate * 100000000.0) as real / 100000000.0
  }

  function CacheKey(source: string, target: string, date: string): string {
    source + ":" + target + ":" + date
  }

  // ----- State -----

  /** A row of the rates table, unique by currency, base and day; the rate is an exact decimal. */
  datatype Row = Row(currency: string, base: string, day: int, rate: real)

  /** A cached answer of the remote service; None records that it had none. */
  datatype Entry = Entry(expiresAt: int, rate: Option<real>)

  datatype State = State(cache: map<string, Entry>, rows: seq<Row>)

  /** `round` is the host's rounding to a double. */
  datatype Config = Config(hasApiKey: bool, cacheTtlMs: int, round: real -> real)

  datatype Source = SameCurrency | LocalExact | Api | ApiCache | LocalFallback | DefaultFallback

  datatype Lookup = Lookup(rate: real, source: Source)

  /** The remote's answer: no usable response, or a payload with or without the wanted rate. */
  datatype Remote = Unreachable | Replied(rate: Option<Num>)

  /** The table's insert: it can fail for the caller before or after it took effect. */
  datatype Insert = Succeeds | TakesThenFails | Fails

  /**
   * One lookup for normalised codes on a day and its printed date, with the clock at its three
   * readings and what the remote and the table's insert would do.
   */
  datatype Call = Call(source: string, target: string, day: int, date: string,
                       startedAt: int, readAt: int, setAt: int, remote: Remote, insert: Insert) {
    function Key(): string {
      CacheKey(source, target, date)
    }
  }

  /** What happens around a call. */
  datatype World = World(startedAt: int, readAt: int, setAt: int, remote: Remote, insert: Insert)

  /** `new Date().toISOString().slice(0, 10)` is today's date. */
  function CallOf(sourceCurrency: string, targetCurrency: string, w: World): Call {
    var day := w.startedAt / MS_PER_DAY;
    Call(NormalizeCurrency(sourceCurrency), NormalizeCurrency(targetCurrency), day, Calendar.IsoDay(day),
         w.startedAt, w.readAt, w.setAt, w.remote, w.insert)
  }

  /** However a code is spaced and cased, the call is about its capitals, on the day that the clock shows. */
  lemma CallIsForToday(source: string, target: string, w: World, s: string, t: string)
    requires IsTrimming(source, s) && IsTrimming(target, t)
    ensures var call := CallOf(source, target, w);
            && call.source == Upper(s) && call.target == Upper(t)
            && call.day * 86_400_000 <= w.startedAt < (call.day + 1) * 86_400_000 && call.date == Calendar.IsoDay(call.day)
  {
    TrimmingIsTrim(source, s);
    TrimmingIsTrim(target, t);
  }

  // ----- The rates table -----

  predicate IsFor(row: Row, source: string, target: string) {
    row.currency == source && row.base == target
  }

  function ExactRate(rows: seq<Row>, source: string, target: string, day: int): Option<real> {
    if rows == [] then None
    else if IsFor(rows[0], source, target) && rows[0].day == day then Some(rows[0].rate)
    else ExactRate(rows[1..], source, target, day)
  }

  /** `order by date desc limit 1` */
  function LatestRow(rows: seq<Row>, source: string, target: string): (latest: Option<Row>)
    ensures latest.None? ==> forall row | row in rows :: !IsFor(row, source, target)
    ensures latest.Some? ==> latest.value in rows && IsFor(latest.value, source, target)
    ensures latest.Some? ==> forall row | row in rows && IsFor(row, source, target) :: row.day <= latest.value.day
  {
    if rows == [] then None
    else
      var rest := LatestRow(rows[1..], source, target);
      if IsFor(rows[0], source, target) && (rest.None? || rest.value.day <= rows[0].day) then Some(rows[0]) else rest
  }

  function Upsert(rows: seq<Row>, row: Row): seq<Row> {
    if rows == [] then [row]
    else if IsFor(rows[0], row.currency, row.base) && rows[0].day == row.day then [row] + rows[1..]
    else [rows[0]] + Upsert(rows[1..], row)
  }

  lemma {:induction false} UpsertExact(rows: seq<Row>, row: Row, source: string, target: string, day: int)
    ensures ExactRate(Upsert(rows, row), source, target, day)
         == if IsFor(row, source, target) && row.day == day then Some(row.rate) else ExactRate(rows, source, target, day)
  {
    if rows != [] {
      UpsertExact(rows[1..], row, source, target, day);
      assert ([rows[0]] + Upsert(rows[1..], row))[1..] == Upsert(rows[1..], row);
      assert ([row] + rows[1..])[1..] == rows[1..];
    }
  }

  // ----- One call -----

  /** The live entry; reading an expired one drops it. */
  function LiveEntry(cache: map<string, Entry>, key: string, now: int): Option<Entry> {
    if key in cache && cache[key].expiresAt > now then Some(cache[key]) else None
  }

  function AfterRead(cache: map<string, Entry>, key: string, now: int): map<string, Entry> {
    if key in cache && cache[key].expiresAt <= now then cache - {key} else cache
  }

  /** The rate in the remote's answer, if it has a usable one. */
  function Quoted(call: Call): Option<real> {
    if call.remote.Unreachable? || call.remote.rate.None? then None else ParseRate(call.remote.rate.value)
  }

  /** What a fetch returns: the insert's failure hides the quoted rate, even if the row was stored. */
  function Obtained(call: Call): Option<real> {
    if call.insert.Succeeds? then Quoted(call) else None
  }

  /** What a fetch leaves in the table. */
  function Inserted(call: Call): Option<real> {
    if call.insert.Fails? || Quoted(call).None? then None else Some(StoredRate(Quoted(call).value))
  }

  /** A fetch caches its outcome either way, but stores only a rate. */
  function AfterFetch(cfg: Config, st: State, call: Call): State {
    var cache := st.cache[call.Key() := Entry(call.setAt + cfg.cacheTtlMs, Obtained(call))];
    match Inserted(call)
    case None => State(cache, st.rows)
    case Some(stored) => State(cache, Upsert(st.rows, Row(call.source, call.target, call.day, stored)))
  }

  /** `parseRate` on the decimal text that the table returns. */
  function ReadBack(cfg: Config, stored: Option<real>): Option<real> {
    if stored.Some? then ParseRate(Finite(cfg.round(stored.value))) else None
  }

  function LocalRate(cfg: Config, st: State, call: Call): Option<real> {
    ReadBack(cfg, ExactRate(st.rows, call.source, call.target, call.day))
  }

  function FallbackRate(cfg: Config, rows: seq<Row>, call: Call): Option<real> {
    var latest := LatestRow(rows, call.source, call.target);
    if latest.Some? then ReadBack(cfg, Some(latest.value.rate)) else None
  }

  function Fallback(cfg: Config, rows: seq<Row>, call: Call): Lookup {
    match FallbackRate(cfg, rows, call)
    case Some(rate) => Lookup(rate, LocalFallback)
    case None => Lookup(1.0, DefaultFallback)
  }

  /** The call reaches the remote service. */
  predicate Fetches(cfg: Config, st: State, call: Call) {
    && cfg.hasApiKey
    && call.source != call.target
    && LocalRate(cfg, st, call).None?
    && LiveEntry(st.cache, call.Key(), call.readAt).None?
  }

  function StateAfter(cfg: Config, st: State, call: Call): State {
    if call.source == call.target || LocalRate(cfg, st, call).Some? then st
    else
      var read := State(AfterRead(st.cache, call.Key(), call.readAt), st.rows);
      if Fetches(cfg, st, call) then AfterFetch(cfg, read, call) else read
  }

  function Answer(cfg: Config, st: State, call: Call): Lookup {
    var live := LiveEntry(st.cache, call.Key(), call.readAt);
    if call.source == call.target then Lookup(1.0, SameCurrency)
    else if LocalRate(cfg, st, call).Some? then Lookup(LocalRate(cfg, st, call).value, LocalExact)
    else if live.Some? && live.value.rate.Some? && live.value.rate.value != 0.0 then Lookup(live.value.rate.value, ApiCache)
    else if Fetches(cfg, st, call) && Obtained(call).Some? then Lookup(Obtained(call).value, Api)
    else Fallback(cfg, StateAfter(cfg, st, call).rows, call)
  }

  class ExchangeRateService {
    const cfg: Config
    var cache: map<string, Entry>
    var rows: seq<Row>

    function Contents(): State
      reads this
    {
      State(cache, rows)
    }

    constructor (cfg: Config, rows: seq<Row>)
      ensures this.cfg == cfg && Contents() == State(map[], rows)
    {
      this.cfg := cfg;
      cache := map[];
      this.rows := rows;
    }

    method ReadCachedRate(key: string, now: int) returns (live: Option<Entry>)
      modifies this`cache
      ensures live == LiveEntry(old(cache), key, now) && cache == AfterRead(old(cache), key, now)
    {
      if key !in cache {
        return None;
      }
      if cache[key].expiresAt <= now {
        cache := cache - {key};
        return None;
      }
      return Some(cache[key]);
    }

    method FetchAndStoreRate(call: Call) returns (rate: Option<real>)
      modifies this
      ensures rate == if cfg.hasApiKey then Obtained(call) else None
      ensures Contents() == if cfg.hasApiKey then AfterFetch(cfg, old(Contents()), call) else old(Contents())
    {
      if !cfg.hasApiKey {
        return None;
      }
      rate := None;
      if call.remote.Replied? && call.remote.rate.Some? {
        rate := ParseRate(call.remote.rate.value);
      }
      if rate.Some? {
        if !call.insert.Fails? {
          rows := Upsert(rows, Row(call.source, call.target, call.day, StoredRate(rate.value)));
        }
        if !call.insert.Succeeds? {
          rate := None;
        }
      }
      cache := cache[call.Key() := Entry(call.setAt + cfg.cacheTtlMs, rate)];
    }

    method GetRate(sourceCurrency: string, targetCurrency: string, w: World) returns (r: Lookup)
      modifies this
      ensures var call := CallOf(sourceCurrency, targetCurrency, w);
              r == Answer(cfg, old(Contents()), call) && Contents() == StateAfter(cfg, old(Contents()), call)
    {
      var call := CallOf(sourceCurrency, targetCurrency, w);
      if call.source == call.target {
        return Lookup(1.0, SameCurrency);
      }
      var local := ReadBack(cfg, ExactRate(rows, call.source, call.target, call.day));
      if local.Some? {
        return Lookup(local.value, LocalExact);
      }
      var cached := ReadCachedRate(call.Key(), call.readAt);
      if cached.Some? && cached.value.rate.Some? && cached.value.rate.value != 0.0 {
        return Lookup(cached.value.rate.value, ApiCache);
      }
      if cached.None? {
        var fetched := FetchAndStoreRate(call);
        if fetched.Some? {
          return Lookup(fetched.value, Api);
        }
      }
      return Fallback(cfg, rows, call);
    }

    method ConvertAmountCents(amountCents: int, sourceCurrency: string, targetCurrency: string, w: World)
      returns (lookup: Lookup, base: int)
      modifies this
      ensures var call := CallOf(sourceCurrency, targetCurrency, w);
              lookup == Answer(cfg, old(Contents()), call) && Contents() == StateAfter(cfg, old(Contents()), call)
      ensures base == Converted(cfg.round, amountCents, lookup.rate)
    {
      lookup := GetRate(sourceCurrency, targetCurrency, w);
      base := Converted(cfg.round, amountCents, lookup.rate);
    }
  }

  // ----- The answer, read off the table, the cache and the remote -----

  /** A stored rate that reads back as a usable one. */
  predicate IsUsable(cfg: Config, row: Row) {
    cfg.round(row.rate) > 0.0
  }

  /** The table's unique index: one row for a currency, a base and a day. */
  ghost predicate HasUniqueRows(rows: seq<Row>) {
    forall i, j | 0 <= i < j < |rows| :: !SameSlot(rows[i], rows[j])
  }

  predicate SameSlot(a: Row, b: Row) {
    a.currency == b.currency && a.base == b.base && a.day == b.day
  }

  ghost predicate NoUsableRowToday(cfg: Config, rows: seq<Row>, call: Call) {
    forall row | row in rows && row.currency == call.source && row.base == call.target && row.day == call.day ::
      !IsUsable(cfg, row)
  }

  /** The cache holds an entry for the pair and the date that has not expired. */
  predicate IsCached(st: State, call: Call) {
    call.Key() in st.cache && st.cache[call.Key()].expiresAt > call.readAt
  }

  /** The remote quotes the rate. */
  predicate IsQuoted(call: Call, rate: real) {
    call.remote == Replied(Some(Finite(rate))) && rate > 0.0
  }

  ghost predicate IsLatest(rows: seq<Row>, call: Call, row: Row) {
    && row in rows && row.currency == call.source && row.base == call.target
    && forall other | other in rows && other.currency == call.source && other.base == call.target :: other.day <= row.day
  }

  lemma {:induction false} ExactRateIff(rows: seq<Row>, source: string, target: string, day: int)
    ensures ExactRate(rows, source, target, day).Some?
            ==> exists row :: row in rows && row.currency == source && row.base == target && row.day == day
                              && row.rate == ExactRate(rows, source, target, day).value
    ensures ExactRate(rows, source, target, day).None?
            ==> forall row | row in rows && row.currency == source && row.base == target :: row.day != day
  {
    if rows != [] {
      if rows[0].currency == source && rows[0].base == target && rows[0].day == day {
        assert rows[0] in rows;
      } else {
        ExactRateIff(rows[1..], source, target, day);
      }
    }
  }

  lemma UniqueRow(rows: seq<Row>, a: Row, b: Row)
    requires HasUniqueRows(rows) && a in rows && b in rows
    requires SameSlot(a, b)
    ensures a == b
  {
    var i :| 0 <= i < |rows| && rows[i] == a;
    var j :| 0 <= j < |rows| && rows[j] == b;
  }

  /** Equal codes convert at 1; else today's row answers if it reads back. */
  lemma TodaysRowAnswers(cfg: Config, st: State, call: Call, row: Row)
    requires HasUniqueRows(st.rows) && row in st.rows
    requires row.currency == call.source && row.base == call.target && row.day == call.day && IsUsable(cfg, row)
    ensures Answer(cfg, st, call)
         == if call.source == call.target then Lookup(1.0, SameCurrency) else Lookup(cfg.round(row.rate), LocalExact)
    ensures StateAfter(cfg, st, call) == st
  {
    ExactRateIff(st.rows, call.source, call.target, call.day);
    var found :| found in st.rows && found.currency == call.source && found.base == call.target && found.day == call.day
                 && found.rate == ExactRate(st.rows, call.source, call.target, call.day).value;
    UniqueRow(st.rows, row, found);
  }

  lemma NoLocalRate(cfg: Config, st: State, call: Call)
    requires NoUsableRowToday(cfg, st.rows, call)
    ensures LocalRate(cfg, st, call).None?
  {
    ExactRateIff(st.rows, call.source, call.target, call.day);
  }

  /** Without one, a live cached rate answers, and neither the table nor the remote is asked. */
  lemma CachedRateAnswers(cfg: Config, st: State, call: Call, rate: real)
    requires call.source != call.target && NoUsableRowToday(cfg, st.rows, call)
    requires IsCached(st, call) && st.cache[call.Key()].rate == Some(rate) && rate > 0.0
    ensures Answer(cfg, st, call) == Lookup(rate, ApiCache) && StateAfter(cfg, st, call) == st
  {
    NoLocalRate(cfg, st, call);
  }

  /** Without a live entry the remote's quote answers, is cached for the TTL, and its decimal is stored for the day. */
  lemma QuotedRateAnswers(cfg: Config, st: State, call: Call, rate: real)
    requires call.source != call.target && NoUsableRowToday(cfg, st.rows, call)
    requires cfg.hasApiKey && !IsCached(st, call) && IsQuoted(call, rate) && call.insert == Succeeds
    ensures Answer(cfg, st, call) == Lookup(rate, Api)
    ensures var st' := StateAfter(cfg, st, call);
            && call.Key() in st'.cache && st'.cache[call.Key()] == Entry(call.setAt + cfg.cacheTtlMs, Some(rate))
            && st'.cache - {call.Key()} == st.cache - {call.Key()}
            && ExactRate(st'.rows, call.source, call.target, call.day) == Some(StoredRate(rate))
  {
    NoLocalRate(cfg, st, call);
    UpsertExact(st.rows, Row(call.source, call.target, call.day, StoredRate(rate)), call.source, call.target, call.day);
  }

  /**
   * What a fetch leaves, whatever the insert does: the outcome that the caller saw is cached for
   * the TTL, and a quoted rate is in the table as the day's decimal unless the insert did nothing.
   */
  lemma FetchLeaves(cfg: Config, st: State, call: Call, rate: real)
    requires call.source != call.target && NoUsableRowToday(cfg, st.rows, call)
    requires cfg.hasApiKey && !IsCached(st, call) && IsQuoted(call, rate)
    ensures var st' := StateAfter(cfg, st, call);
            && call.Key() in st'.cache
            && st'.cache[call.Key()] == Entry(call.setAt + cfg.cacheTtlMs, if call.insert == Succeeds then Some(rate) else None)
            && (call.insert != Fails ==> ExactRate(st'.rows, call.source, call.target, call.day) == Some(StoredRate(rate)))
            && (call.insert == Fails ==> st'.rows == st.rows)
  {
    NoLocalRate(cfg, st, call);
    UpsertExact(st.rows, Row(call.source, call.target, call.day, StoredRate(rate)), call.source, call.target, call.day);
  }

  /** A fetch without a quote caches that for the TTL and leaves the table alone. */
  lemma FailedFetchLeaves(cfg: Config, st: State, call: Call)
    requires call.source != call.target && NoUsableRowToday(cfg, st.rows, call)
    requires cfg.hasApiKey && !IsCached(st, call) && forall rate: real :: !IsQuoted(call, rate)
    ensures var st' := StateAfter(cfg, st, call);
            st'.rows == st.rows && call.Key() in st'.cache && st'.cache[call.Key()] == Entry(call.setAt + cfg.cacheTtlMs, None)
  {
    NoLocalRate(cfg, st, call);
    assert Quoted(call).Some? ==> IsQuoted(call, Quoted(call).value);
  }

  /** Nothing usable comes from the cache or the remote: a cached failure, no key, no quote or a failing insert. */
  ghost predicate GoesWithoutRemote(cfg: Config, st: State, call: Call) {
    if IsCached(st, call) then st.cache[call.Key()].rate == None
    else !cfg.hasApiKey || call.insert != Succeeds || forall rate: real :: !IsQuoted(call, rate)
  }

  /**
   * Then the pair's latest row answers, as the call leaves the table: today's, if the fetch stored
   * one before it failed. Only if that row does not read back, or there is none, the rate is 1.
   */
  lemma LatestRowAnswers(cfg: Config, st: State, call: Call, row: Row)
    requires call.source != call.target && NoUsableRowToday(cfg, st.rows, call) && GoesWithoutRemote(cfg, st, call)
    requires HasUniqueRows(StateAfter(cfg, st, call).rows) && IsLatest(StateAfter(cfg, st, call).rows, call, row)
    ensures Answer(cfg, st, call)
         == if IsUsable(cfg, row) then Lookup(cfg.round(row.rate), LocalFallback) else Lookup(1.0, DefaultFallback)
  {
    NoLocalRate(cfg, st, call);
    assert Quoted(call).Some? ==> IsQuoted(call, Quoted(call).value);
    var rows := StateAfter(cfg, st, call).rows;
    var latest := LatestRow(rows, call.source, call.target);
    assert latest.Some?;
    UniqueRow(rows, latest.value, row);
  }

  lemma NoRowAnswers(cfg: Config, st: State, call: Call)
    requires call.source != call.target && GoesWithoutRemote(cfg, st, call)
    requires forall row | row in StateAfter(cfg, st, call).rows :: !(row.currency == call.source && row.base == call.target)
    ensures Answer(cfg, st, call) == Lookup(1.0, DefaultFallback)
  {
    assert Quoted(call).Some? ==> IsQuoted(call, Quoted(call).value);
    assert LatestRow(StateAfter(cfg, st, call).rows, call.source, call.target).None?;
    if LocalRate(cfg, st, call).Some? {
      ExactRateIff(st.rows, call.source, call.target, call.day);
    }
  }

  /** A fetch that stores a row changes only today's row of the pair, and keeps the rows unique. */
  lemma {:induction false} UpsertKeepsOthers(rows: seq<Row>, row: Row)
    requires HasUniqueRows(rows)
    ensures HasUniqueRows(Upsert(rows, row))
    ensures row in Upsert(rows, row)
    ensures forall other | other != row :: other in Upsert(rows, row) <==> other in rows && !SameSlot(other, row)
  {
    if rows != [] {
      var (first, rest) := (rows[0], rows[1..]);
      assert rows == [first] + rest;
      assert forall other | other in rest :: !SameSlot(first, other) by {
        forall other | other in rest ensures !SameSlot(first, other) {
          var i :| 0 <= i < |rest| && rest[i] == other;
          assert rows[0] == first && rows[i + 1] == other;
        }
      }
      if SameSlot(first, row) {
        assert Upsert(rows, row) == [row] + rest;
      } else {
        UpsertKeepsOthers(rest, row);
        var after := Upsert(rest, row);
        assert Upsert(rows, row) == [first] + after;
        assert forall other | other in after :: !SameSlot(first, other);
      }
    }
  }

  /** The exact product. */
  function Product(amountCents: int, rate: real): real {
    amountCents as real * rate
  }

  /** `Math.round(amountCents * rate)`, the product being rounded to a double first. */
  function Converted(round: real -> real, amountCents: int, rate: real): int {
    Amounts.Round(round(Product(amountCents, rate)))
  }

  // ----- Sequential runs -----

  function After(cfg: Config, st: State, calls: seq<Call>): State {
    if calls == [] then st else StateAfter(cfg, After(cfg, st, calls[..|calls| - 1]), calls[|calls| - 1])
  }

  /** The clock never goes back, within a call or between calls. */
  ghost predicate Sequential(calls: seq<Call>) {
    && (forall i | 0 <= i < |calls| :: calls[i].startedAt <= calls[i].readAt <= calls[i].setAt)
    && (forall i, j | 0 <= i < j < |calls| :: calls[i].setAt <= calls[j].startedAt)
  }

  /** Cached rates are positive. */
  ghost predicate IsSane(st: State) {
    forall key | key in st.cache && st.cache[key].rate.Some? :: st.cache[key].rate.value > 0.0
  }

  lemma {:induction false} RunStaysSane(cfg: Config, st: State, calls: seq<Call>)
    requires IsSane(st)
    ensures IsSane(After(cfg, st, calls))
  {
    if calls != [] {
      RunStaysSane(cfg, st, calls[..|calls| - 1]);
    }
  }

  /** Every rate returned in any run is strictly positive. */
  lemma RatesArePositive(cfg: Config, rows: seq<Row>, calls: seq<Call>, call: Call)
    ensures Answer(cfg, After(cfg, State(map[], rows), calls), call).rate > 0.0
  {
    RunStaysSane(cfg, State(map[], rows), calls);
  }

  /** A fetch keeps its key away from the remote until its entry expires. */
  ghost predicate Settled(st: State, key: string, until: int, now: int) {
    (key in st.cache && st.cache[key].expiresAt >= until) || now >= until
  }

  lemma StepStaysSettled(cfg: Config, st: State, call: Call, key: string, until: int, now: int)
    requires Settled(st, key, until, now) && now <= call.readAt <= call.setAt
    ensures Fetches(cfg, st, call) && call.Key() == key ==> call.readAt >= until
    ensures Settled(StateAfter(cfg, st, call), key, until, call.readAt)
  {
  }

  lemma {:induction false} StaysSettled(cfg: Config, st: State, calls: seq<Call>, i: nat, k: nat)
    requires Sequential(calls) && i < k <= |calls| && Fetches(cfg, After(cfg, st, calls[..i]), calls[i])
    ensures Settled(After(cfg, st, calls[..k]), calls[i].Key(), calls[i].setAt + cfg.cacheTtlMs,
                    if k == i + 1 then calls[i].setAt else calls[k - 1].readAt)
    decreases k
  {
    var until := calls[i].setAt + cfg.cacheTtlMs;
    assert calls[..k][..k - 1] == calls[..k - 1];
    if k == i + 1 {
      JustFetched(cfg, After(cfg, st, calls[..i]), calls[i]);
    } else {
      StaysSettled(cfg, st, calls, i, k - 1);
      var now := if k - 1 == i + 1 then calls[i].setAt else calls[k - 2].readAt;
      StepStaysSettled(cfg, After(cfg, st, calls[..k - 1]), calls[k - 1], calls[i].Key(), until, now);
    }
  }

  lemma JustFetched(cfg: Config, st: State, call: Call)
    requires Fetches(cfg, st, call)
    ensures Settled(StateAfter(cfg, st, call), call.Key(), call.setAt + cfg.cacheTtlMs, call.setAt)
  {
  }

  /** Two fetches for one source, target and day are at least the TTL apart, success or failure. */
  lemma FetchesAreSpaced(cfg: Config, st: State, calls: seq<Call>, i: nat, j: nat)
    requires Sequential(calls) && i < j < |calls| && calls[i].Key() == calls[j].Key()
    requires Fetches(cfg, After(cfg, st, calls[..i]), calls[i]) && Fetches(cfg, After(cfg, st, calls[..j]), calls[j])
    ensures calls[j].readAt >= calls[i].setAt + cfg.cacheTtlMs
  {
    StaysSettled(cfg, st, calls, i, j);
    var now := if j == i + 1 then calls[i].setAt else calls[j - 1].readAt;
    StepStaysSettled(cfg, After(cfg, st, calls[..j]), calls[j], calls[i].Key(), calls[i].setAt + cfg.cacheTtlMs, now);
  }

  // ----- The fetched rate and the stored one -----

  /** Once a pair has a rate in the table that reads back, it is served from there for the rest of the day. */
  lemma {:induction false} StoredRateStays(cfg: Config, st: State, calls: seq<Call>, source: string, target: string, day: int)
    requires ReadBack(cfg, ExactRate(st.rows, source, target, day)).Some?
    ensures ExactRate(After(cfg, st, calls).rows, source, target, day) == ExactRate(st.rows, source, target, day)
  {
    if calls != [] {
      var (before, call) := (After(cfg, st, calls[..|calls| - 1]), calls[|calls| - 1]);
      StoredRateStays(cfg, st, calls[..|calls| - 1], source, target, day);
      if Fetches(cfg, before, call) && Inserted(call).Some? {
        UpsertExact(before.rows, Row(call.source, call.target, call.day, Inserted(call).value), source, target, day);
      }
    }
  }

  /** Rounding keeps the sign. */
  lemma RoundingKeepsSign(round: real -> real, x: real)
    requires Amounts.RoundsToNearest(round)
    ensures round(x) > 0.0 <==> x > 0.0
  {
    assert Amounts.Abs(round(x) - x) * 9007199254740992.0 <= Amounts.Abs(x);
  }

  /**
   * After a fetch that stored its rate, whether or not the insert reported so, every later call of
   * that day gets the stored decimal, if that is positive.
   */
  lemma FetchedThenStored(cfg: Config, st: State, first: Call, calls: seq<Call>, later: Call)
    requires Amounts.RoundsToNearest(cfg.round)
    requires Fetches(cfg, st, first) && Inserted(first).Some? && Inserted(first).value > 0.0
    requires later.source == first.source && later.target == first.target && later.day == first.day
    ensures var after := After(cfg, StateAfter(cfg, st, first), calls);
            Answer(cfg, after, later) == Lookup(cfg.round(Inserted(first).value), LocalExact)
  {
    var stored := Inserted(first).value;
    UpsertExact(st.rows, Row(first.source, first.target, first.day, stored), first.source, first.target, first.day);
    RoundingKeepsSign(cfg.round, stored);
    StoredRateStays(cfg, StateAfter(cfg, st, first), calls, first.source, first.target, first.day);
  }

  lemma RoundsStayClose(x: real, y: real)
    requires -1.0 <= x - y <= 1.0
    ensures -1 <= Amounts.Round(x) - Amounts.Round(y) <= 1
  {
  }

  lemma StoredRateIsNear(rate: real)
    ensures Amounts.Abs(StoredRate(rate) - rate) * 200000000.0 <= 1.0
  {
  }

  lemma AbsProduct(a: real, d: real)
    ensures Amounts.Abs(a * d) == Amounts.Abs(a) * Amounts.Abs(d)
  {
  }

  lemma ProductOfDifference(amountCents: int, b: real, c: real)
    ensures Product(amountCents, b - c) == Product(amountCents, b) - Product(amountCents, c)
  {
  }

  /** The product scales a bound on its factor, and with it the bound's own size. */
  lemma ProductScales(amountCents: int, d: real, b: real, w: real)
    requires Amounts.Abs(d) * w <= Amounts.Abs(b) && w > 0.0
    ensures Amounts.Abs(Product(amountCents, d)) * w <= Amounts.Abs(Product(amountCents, b))
  {
    var a := amountCents as real;
    var (x, y, z) := (Amounts.Abs(a), Amounts.Abs(d), Amounts.Abs(b));
    AbsProduct(a, d);
    AbsProduct(a, b);
    NonNegProduct(x, z - y * w);
    Expand(x, y, z, w);
  }

  lemma Expand(x: real, y: real, z: real, w: real)
    ensures x * (z - y * w) == x * z - x * y * w
  {
  }

  lemma NonNegProduct(x: real, y: real)
    requires x >= 0.0 && y >= 0.0
    ensures x * y >= 0.0
  {
  }

  function Share(amountCents: int): real {
    Amounts.Abs(amountCents as real) / 200000000.0
  }

  /**
   * How far the two conversions can drift apart, in cents: half a stored decimal for each unit of
   * the amount, and four rounding errors of the product.
   */
  function Drift(amountCents: int, rate: real): real {
    Share(amountCents) + (Amounts.Abs(Product(amountCents, rate)) + 1.0) / 2251799813685248.0
  }

  /** The errors of the stored decimal, of its rounding and of the two products, added up. */
  lemma ErrorsAddUp(p: real, x: real, q: real, z: real, y: real, share: real)
    requires Amounts.Abs(x - p) * 9007199254740992.0 <= Amounts.Abs(p)
    requires Amounts.Abs(q - p) <= share
    requires Amounts.Abs(z - q) * 9007199254740992.0 <= Amounts.Abs(q)
    requires Amounts.Abs(y - z) * 9007199254740992.0 <= Amounts.Abs(z)
    requires share + (Amounts.Abs(p) + 1.0) / 2251799813685248.0 <= 1.0
    ensures -1.0 <= x - y <= 1.0
  {
  }

  /** A fetched rate and its stored form convert to within one cent while the drift is at most one. */
  lemma ConversionsAgree(round: real -> real, amountCents: int, rate: real)
    requires Amounts.RoundsToNearest(round) && Drift(amountCents, rate) <= 1.0
    ensures -1 <= Converted(round, amountCents, rate)
                  - Converted(round, amountCents, round(StoredRate(rate))) <= 1
  {
    hide StoredRate, Product, Share;
    var stored := StoredRate(rate);
    StoredRateIsNear(rate);
    ProductErrors(amountCents, rate, stored, round(stored));
    ProductsAgree(round, Product(amountCents, rate), Product(amountCents, stored), Product(amountCents, round(stored)),
                  Share(amountCents));
  }

  lemma ProductsAgree(round: real -> real, p: real, q: real, z: real, share: real)
    requires Amounts.RoundsToNearest(round) && Amounts.Abs(q - p) <= share
    requires Amounts.Abs(z - q) * 9007199254740992.0 <= Amounts.Abs(q)
    requires share + (Amounts.Abs(p) + 1.0) / 2251799813685248.0 <= 1.0
    ensures -1 <= Amounts.Round(round(p)) - Amounts.Round(round(z)) <= 1
  {
    ErrorsAddUp(p, round(p), q, z, round(z), share);
    RoundsStayClose(round(p), round(z));
  }

  /** The errors of the stored decimal and of its rounding, scaled by the amount. */
  lemma ProductErrors(amountCents: int, rate: real, stored: real, back: real)
    requires Amounts.Abs(stored - rate) * 200000000.0 <= 1.0
    requires Amounts.Abs(back - stored) * 9007199254740992.0 <= Amounts.Abs(stored)
    ensures Amounts.Abs(Product(amountCents, stored) - Product(amountCents, rate)) <= Share(amountCents)
    ensures Amounts.Abs(Product(amountCents, back) - Product(amountCents, stored)) * 9007199254740992.0
            <= Amounts.Abs(Product(amountCents, stored))
  {
    hide Product, Share;
    ShareIsProduct(amountCents);
    ProductScales(amountCents, stored - rate, 1.0, 200000000.0);
    ProductScales(amountCents, back - stored, stored, 9007199254740992.0);
    ProductOfDifference(amountCents, stored, rate);
    ProductOfDifference(amountCents, back, stored);
  }

  lemma ShareIsProduct(amountCents: int)
    ensures Amounts.Abs(Product(amountCents, 1.0)) == Share(amountCents) * 200000000.0
  {
  }

  lemma Scales(n: nat)
    requires n == 9
    ensures Pow2(2 * n) == 262144 && Pow2(5 * n) == 35184372088832
  {
    assert Pow2(9) == 512;
    Pow2Sum(n, n);
    Pow2Sum(2 * n, 2 * n);
    Pow2Sum(4 * n, n);
  }

  /** A drift barely over one is too much: under two million major units, two cents apart. */
  lemma BoundIsTight(round: real -> real)
    requires Amounts.RoundsCorrectly(round)
    ensures var rate := 5787829223566222.0 / 35184372088832.0;
            && round(164.500000425) == rate && round(rate) == rate
            && 1.0 < Drift(199999999, rate) < 1.00002
            && Converted(round, 199999999, rate) - Converted(round, 199999999, round(StoredRate(rate))) == 2
  {
    var rate := 5787829223566222.0 / 35184372088832.0;
    Rounded(round, 164.500000425, 5787829223566222, 45);
    Rounded(round, rate, 5787829223566222, 45);
    assert StoredRate(rate) == 164.50000042;
    Rounded(round, 164.50000042, 5787829223390300, 45);
    Rounded(round, 199999999.0 * rate, 8624537579159552, 18);
    Rounded(round, 199999999.0 * (5787829223390300.0 / 35184372088832.0), 8624537578897407, 18);
  }

  lemma Rounded(round: real -> real, x: real, m: int, p: nat)
    requires Amounts.RoundsCorrectly(round) && (p == 18 || p == 45) && 4503599627370496 < m < 9007199254740992
    requires var scale := if p == 18 then 262144.0 else 35184372088832.0; -0.5 < x * scale - m as real < 0.5
    ensures round(x) == m as real / (if p == 18 then 262144.0 else 35184372088832.0)
  {
    Scales(9);
    assert Amounts.IsNearestDouble(x, m, p);
  }

  /** So every conversion of the day is within a cent of the first one, under the same condition. */
  lemma SameDayConversions(cfg: Config, st: State, first: Call, calls: seq<Call>, later: Call, amountCents: int)
    requires Amounts.RoundsToNearest(cfg.round)
    requires Fetches(cfg, st, first) && Obtained(first).Some? && StoredRate(Obtained(first).value) > 0.0
    requires later.source == first.source && later.target == first.target && later.day == first.day
    requires Drift(amountCents, Obtained(first).value) <= 1.0
    ensures var after := After(cfg, StateAfter(cfg, st, first), calls);
            -1 <= Converted(cfg.round, amountCents, Answer(cfg, st, first).rate)
                  - Converted(cfg.round, amountCents, Answer(cfg, after, later).rate) <= 1
  {
    FetchedThenStored(cfg, st, first, calls, later);
    ConversionsAgree(cfg.round, amountCents, Obtained(first).value);
  }

  // ----- Cache keys -----

  /** Without colons in the codes, the key tells pairs and printed dates apart. */
  lemma KeysTellApart(a: Call, b: Call)
    requires ':' !in a.source && ':' !in a.target && ':' !in b.source && ':' !in b.target
    ensures a.Key() == b.Key() <==> a.source == b.source && a.target == b.target && a.date == b.date
  {
    if a.Key() == b.Key() {
      assert a.Key() == a.source + ":" + (a.target + ":" + a.date) && b.Key() == b.source + ":" + (b.target + ":" + b.date);
      FirstColon(a.source, b.source, a.target + ":" + a.date, b.target + ":" + b.date);
      FirstColon(a.target, b.target, a.date, b.date);
    }
  }
}
