/** The per-cluster circuit breaker of the outbound proxy. */
module Breaker {
  /** The settings in force, after the source's defaults. Times are in ticks of one second. */
  datatype Config = Config(
    minRequestAmount: nat,
    statTimeWindow: nat,
    slowTimeThreshold: real,
    slowAmountThreshold: nat,
    slowRatioThreshold: real,
    errorAmountThreshold: nat,
    errorRatioThreshold: real,
    degradedTimeWindow: nat)

  /** Zero and absent settings take the default, so these are never zero. */
  predicate Defaulted(c: Config) {
    c.minRequestAmount > 0 && c.statTimeWindow > 0 && c.degradedTimeWindow > 0
  }

  /** `log` records the calls of `open` (true) and `close` (false). */
  datatype State = State(
    tick: nat, delay: nat,
    total: nat, slowAmount: nat, errorAmount: nat,
    degraded: bool, lastDegraded: bool,
    slowQuota: nat, errorQuota: nat,
    log: seq<bool>)

  predicate SlowEnabled(c: Config) {
    c.slowAmountThreshold > 0 || c.slowRatioThreshold > 0.0
  }

  predicate ErrorEnabled(c: Config) {
    c.errorAmountThreshold > 0 || c.errorRatioThreshold > 0.0
  }

  /** `amount` out of `total` requests is too many. */
  predicate TooMany(c: Config, amount: nat, total: nat, ratio: real) {
    ratio > 0.0 && total >= c.minRequestAmount && total > 0 && amount as real / total as real >= ratio
  }

  function Capped(amount: nat, total: nat): nat {
    if amount < total then amount + 1 else amount
  }

  predicate CountsSlow(c: Config, seconds: real) {
    SlowEnabled(c) && seconds >= c.slowTimeThreshold
  }

  predicate CountsError(c: Config, status: int) {
    ErrorEnabled(c) && status > 499
  }

  predicate TripsSlow(c: Config, s: State) {
    || (c.slowAmountThreshold > 0 && s.slowQuota == 0)
    || TooMany(c, Capped(s.slowAmount, s.total), s.total, c.slowRatioThreshold)
  }

  predicate TripsError(c: Config, s: State) {
    || (c.errorAmountThreshold > 0 && s.errorQuota == 0)
    || TooMany(c, Capped(s.errorAmount, s.total), s.total, c.errorRatioThreshold)
  }

  function Tripped(s: State, trips: bool): State {
    s.(lastDegraded := s.degraded, degraded := s.degraded || trips,
       log := if !s.degraded && trips then s.log + [true] else s.log)
  }

  function CheckSlow(c: Config, s: State, seconds: real): State {
    if !CountsSlow(c, seconds) then s
    else Tripped(s.(slowAmount := Capped(s.slowAmount, s.total),
                    slowQuota := if c.slowAmountThreshold > 0 && s.slowQuota > 0 then s.slowQuota - 1 else s.slowQuota),
                 TripsSlow(c, s))
  }

  function CheckError(c: Config, s: State, status: int): State {
    if !CountsError(c, status) then s
    else Tripped(s.(errorAmount := Capped(s.errorAmount, s.total),
                    errorQuota := if c.errorAmountThreshold > 0 && s.errorQuota > 0 then s.errorQuota - 1
                                  else s.errorQuota),
                 TripsError(c, s))
  }

  function Cleared(s: State): State {
    s.(tick := 0, total := 0, slowAmount := 0, errorAmount := 0)
  }

  /** One second passes. The tick that closes the breaker is also the first of the next window. */
  function Refresh(c: Config, s: State): State {
    var t :=
      if !s.degraded then s
      else if s.delay + 1 > c.degradedTimeWindow then
        Cleared(s).(delay := 0, degraded := false, lastDegraded := false, log := s.log + [false])
      else s.(delay := s.delay + 1);
    if t.degraded then t
    else if t.tick + 1 > c.statTimeWindow then Cleared(t)
    else t.(tick := t.tick + 1)
  }

  function Fresh(c: Config): State {
    State(0, 0, 0, 0, 0, false, false, Quota(c.slowAmountThreshold), Quota(c.errorAmountThreshold), [])
  }

  /** What an amount threshold allows between two refills. */
  function Quota(threshold: nat): nat {
    if threshold > 0 then threshold - 1 else 0
  }

  class CircuitBreaker {
    const c: Config
    var tick: nat
    var delay: nat
    var total: nat
    var slowAmount: nat
    var errorAmount: nat
    var degraded: bool
    var lastDegraded: bool
    var slowQuota: nat
    var errorQuota: nat
    var log: seq<bool>

    ghost function Value(): State
      reads this
    {
      State(tick, delay, total, slowAmount, errorAmount, degraded, lastDegraded, slowQuota, errorQuota, log)
    }

    constructor (config: Config)
      ensures c == config && Value() == Fresh(config)
    {
      c := config;
      tick, delay, total, slowAmount, errorAmount := 0, 0, 0, 0, 0;
      degraded, lastDegraded, log := false, false, [];
      slowQuota := if config.slowAmountThreshold > 0 then config.slowAmountThreshold - 1 else 0;
      errorQuota := if config.errorAmountThreshold > 0 then config.errorAmountThreshold - 1 else 0;
    }

    method Increase()
      modifies this
      ensures Value() == old(Value()).(total := old(total) + 1)
    {
      total := total + 1;
    }

    /** `consume(1)`: what of the one could be taken. */
    method ConsumeSlow() returns (taken: nat)
      modifies this`slowQuota
      ensures taken == (if old(slowQuota) > 0 then 1 else 0) && slowQuota == old(slowQuota) - taken
    {
      taken := if slowQuota > 0 then 1 else 0;
      slowQuota := slowQuota - taken;
    }

    method ConsumeError() returns (taken: nat)
      modifies this`errorQuota
      ensures taken == (if old(errorQuota) > 0 then 1 else 0) && errorQuota == old(errorQuota) - taken
    {
      taken := if errorQuota > 0 then 1 else 0;
      errorQuota := errorQuota - taken;
    }

    method RecordSlow(seconds: real)
      modifies this
      ensures Value() == CheckSlow(c, old(Value()), seconds)
    {
      if SlowEnabled(c) && seconds >= c.slowTimeThreshold {
        lastDegraded := degraded;
        if slowAmount < total {
          slowAmount := slowAmount + 1;
        }
        var taken := 1;
        if c.slowAmountThreshold > 0 {
          taken := ConsumeSlow();
        }
        if taken != 1 {
          degraded := true;
        } else if c.slowRatioThreshold > 0.0 && total >= c.minRequestAmount && total > 0
                  && slowAmount as real / total as real >= c.slowRatioThreshold {
          degraded := true;
        }
        if !lastDegraded && degraded {
          log := log + [true];
        }
      }
    }

    method RecordError(statusCode: int)
      modifies this
      ensures Value() == CheckError(c, old(Value()), statusCode)
    {
      if ErrorEnabled(c) && statusCode > 499 {
        lastDegraded := degraded;
        if errorAmount < total {
          errorAmount := errorAmount + 1;
        }
        var taken := 1;
        if c.errorAmountThreshold > 0 {
          taken := ConsumeError();
        }
        if taken != 1 {
          degraded := true;
        } else if c.errorRatioThreshold > 0.0 && total >= c.minRequestAmount && total > 0
                  && errorAmount as real / total as real >= c.errorRatioThreshold {
          degraded := true;
        }
        if !lastDegraded && degraded {
          log := log + [true];
        }
      }
    }

    method RefreshTimer()
      modifies this
      ensures Value() == Refresh(c, old(Value()))
    {
      if degraded {
        delay := delay + 1;
        if delay > c.degradedTimeWindow {
          lastDegraded, degraded := false, false;
          log := log + [false];
          delay, tick, total, slowAmount, errorAmount := 0, 0, 0, 0, 0;
        }
      }
      if !degraded {
        tick := tick + 1;
        if tick > c.statTimeWindow {
          tick, total, slowAmount, errorAmount := 0, 0, 0, 0;
        }
      }
    }
  }

  // ----- Runs -----

  /** Requests and responses of one cluster, the one-second task, and the refills of the two quotas. */
  datatype Event = Request | Response(status: int, seconds: real) | Tick | RefillSlow | RefillError

  function Next(c: Config, s: State, e: Event): State {
    match e
    case Request => if s.degraded then s else s.(total := s.total + 1)
    case Response(status, seconds) => CheckSlow(c, CheckError(c, s, status), seconds)
    case Tick => Refresh(c, s)
    case RefillSlow => s.(slowQuota := Quota(c.slowAmountThreshold))
    case RefillError => s.(errorQuota := Quota(c.errorAmountThreshold))
  }

  function Exec(c: Config, s: State, es: seq<Event>): State
    decreases |es|
  {
    if es == [] then s else Exec(c, Next(c, s, es[0]), es[1..])
  }

  lemma {:induction false} ExecAppend(c: Config, s: State, a: seq<Event>, b: seq<Event>)
    ensures Exec(c, s, a + b) == Exec(c, Exec(c, s, a), b)
    decreases |a|
  {
    if a == [] {
      assert a + b == b;
    } else {
      assert (a + b)[1..] == a[1..] + b;
      ExecAppend(c, Next(c, s, a[0]), a[1..], b);
    }
  }

  predicate Alternates(log: seq<bool>) {
    forall i | 0 <= i < |log| :: log[i] == (i % 2 == 0)
  }

  ghost predicate Sound(c: Config, s: State) {
    && s.slowAmount <= s.total && s.errorAmount <= s.total
    && s.tick <= c.statTimeWindow && s.delay <= c.degradedTimeWindow
    && (!s.degraded ==> s.delay == 0 && !s.lastDegraded)
    && s.slowQuota <= Quota(c.slowAmountThreshold) && s.errorQuota <= Quota(c.errorAmountThreshold)
    && Alternates(s.log) && (s.degraded <==> |s.log| % 2 == 1)
  }

  lemma SoundError(c: Config, s: State, status: int)
    requires Sound(c, s)
    ensures Sound(c, CheckError(c, s, status))
  {}

  lemma SoundSlow(c: Config, s: State, seconds: real)
    requires Sound(c, s)
    ensures Sound(c, CheckSlow(c, s, seconds))
  {}

  lemma SoundStep(c: Config, s: State, e: Event)
    requires Sound(c, s)
    ensures Sound(c, Next(c, s, e))
  {
    if e.Response? {
      SoundError(c, s, e.status);
      SoundSlow(c, CheckError(c, s, e.status), e.seconds);
    }
  }

  /** Counters stay within their totals, opens and closes alternate, and the breaker is degraded exactly
      between the two. */
  lemma {:induction false} EveryRun(c: Config, s: State, es: seq<Event>)
    requires Sound(c, s)
    ensures Sound(c, Exec(c, s, es))
    decreases |es|
  {
    if es != [] {
      SoundStep(c, s, es[0]);
      EveryRun(c, Next(c, s, es[0]), es[1..]);
    }
  }

  function Ticks(es: seq<Event>): nat {
    if es == [] then 0 else (if es[0].Tick? then 1 else 0) + Ticks(es[1..])
  }

  function Requests(es: seq<Event>): nat {
    if es == [] then 0 else (if es[0].Request? then 1 else 0) + Requests(es[1..])
  }

  /** Once open, nothing but `degradedTimeWindow + 1` ticks closes the breaker. */
  lemma {:induction false} StaysOpen(c: Config, s: State, es: seq<Event>)
    requires s.degraded && s.delay + Ticks(es) <= c.degradedTimeWindow
    ensures Exec(c, s, es).degraded && Exec(c, s, es).delay == s.delay + Ticks(es)
    decreases |es|
  {
    if es != [] {
      StaysOpen(c, Next(c, s, es[0]), es[1..]);
    }
  }

  /** A breaker that just opened is still open after `degradedTimeWindow` ticks, whatever else happens, and
      the next tick closes it with empty counters. */
  lemma ClosesExactly(c: Config, s: State, es: seq<Event>)
    requires Defaulted(c) && Sound(c, s) && s.degraded && s.delay == 0 && Ticks(es) == c.degradedTimeWindow
    ensures Exec(c, s, es).degraded
    ensures var t := Exec(c, s, es + [Tick]);
            !t.degraded && t.total == t.slowAmount == t.errorAmount == 0 && t.tick == 1
                && t.log == Exec(c, s, es).log + [false]
  {
    StaysOpen(c, s, es);
    EveryRun(c, s, es);
    ExecAppend(c, s, es, [Tick]);
    assert [Tick][1..] == [];
  }

  /** A closed breaker has counted at most the requests of the run, once the run is longer than the window. */
  lemma {:induction false} WindowBound(c: Config, s: State, es: seq<Event>)
    requires s.tick <= c.statTimeWindow && !Exec(c, s, es).degraded
    ensures Exec(c, s, es).total <= Requests(es)
            + (if !s.degraded && s.tick + Ticks(es) <= c.statTimeWindow then s.total else 0)
    decreases |es|
  {
    if es != [] {
      WindowBound(c, Next(c, s, es[0]), es[1..]);
    }
  }

  /** Within one window and without a trip, every request is counted. */
  lemma {:induction false} CountsAll(c: Config, s: State, es: seq<Event>)
    requires !s.degraded && s.tick + Ticks(es) <= c.statTimeWindow
    requires forall i | 0 <= i <= |es| :: !Exec(c, s, es[..i]).degraded
    ensures Exec(c, s, es).total == s.total + Requests(es) && Exec(c, s, es).tick == s.tick + Ticks(es)
    decreases |es|
  {
    if es != [] {
      var t := Next(c, s, es[0]);
      forall i | 0 <= i <= |es| - 1 ensures !Exec(c, t, es[1..][..i]).degraded {
        assert es[..i + 1][0] == es[0] && es[..i + 1][1..] == es[1..][..i];
      }
      assert es[..1][1..] == [];
      assert !Exec(c, s, es[..1]).degraded;
      CountsAll(c, t, es[1..]);
    }
  }

  /** A window that begins at tick 0 lasts `statTimeWindow + 1` ticks, and one that begins with a close, at
      tick 1, one less: the next tick empties the counters. */
  lemma WindowEnds(c: Config, s: State, es: seq<Event>)
    requires !s.degraded && s.tick + Ticks(es) == c.statTimeWindow
    requires forall i | 0 <= i <= |es| :: !Exec(c, s, es[..i]).degraded
    ensures var t := Exec(c, s, es + [Tick]);
            t.tick == t.total == t.slowAmount == t.errorAmount == 0 && !t.degraded
  {
    CountsAll(c, s, es);
    assert es[..|es|] == es;
    ExecAppend(c, s, es, [Tick]);
    assert [Tick][1..] == [];
  }

  /** The slow responses, and the error responses, since the last refill of their quota. */
  function SlowSince(es: seq<Event>, limit: real): nat {
    if es == [] then 0
    else
      var e, before := es[|es| - 1], SlowSince(es[..|es| - 1], limit);
      if e.RefillSlow? then 0 else if e.Response? && e.seconds >= limit then before + 1 else before
  }

  function ErrorsSince(es: seq<Event>): nat {
    if es == [] then 0
    else
      var e, before := es[|es| - 1], ErrorsSince(es[..|es| - 1]);
      if e.RefillError? then 0 else if e.Response? && e.status >= 500 then before + 1 else before
  }

  function Left(quota: nat, used: nat): nat {
    if used <= quota then quota - used else 0
  }

  lemma ExecSnoc(c: Config, s: State, es: seq<Event>)
    requires es != []
    ensures Exec(c, s, es) == Next(c, Exec(c, s, es[..|es| - 1]), es[|es| - 1])
  {
    var n := |es| - 1;
    assert es == es[..n] + [es[n]];
    ExecAppend(c, s, es[..n], [es[n]]);
    assert [es[n]][1..] == [];
  }

  /** A quota counts its responses down from its last refill on, open or closed. */
  lemma QuotasCount(c: Config, es: seq<Event>)
    ensures var t := Exec(c, Fresh(c), es);
            && (c.slowAmountThreshold > 0 ==>
                  t.slowQuota == Left(c.slowAmountThreshold - 1, SlowSince(es, c.slowTimeThreshold)))
            && (c.errorAmountThreshold > 0 ==>
                  t.errorQuota == Left(c.errorAmountThreshold - 1, ErrorsSince(es)))
  {
    if c.slowAmountThreshold > 0 {
      SlowQuotaCounts(c, es);
    }
    if c.errorAmountThreshold > 0 {
      ErrorQuotaCounts(c, es);
    }
  }

  lemma {:induction false} SlowQuotaCounts(c: Config, es: seq<Event>)
    requires c.slowAmountThreshold > 0
    ensures Exec(c, Fresh(c), es).slowQuota == Left(c.slowAmountThreshold - 1, SlowSince(es, c.slowTimeThreshold))
    decreases |es|
  {
    if es != [] {
      ExecSnoc(c, Fresh(c), es);
      SlowQuotaCounts(c, es[..|es| - 1]);
    }
  }

  lemma {:induction false} ErrorQuotaCounts(c: Config, es: seq<Event>)
    requires c.errorAmountThreshold > 0
    ensures Exec(c, Fresh(c), es).errorQuota == Left(c.errorAmountThreshold - 1, ErrorsSince(es))
    decreases |es|
  {
    if es != [] {
      ExecSnoc(c, Fresh(c), es);
      ErrorQuotaCounts(c, es[..|es| - 1]);
    }
  }

  // ----- What the counters count -----

  /** The error responses, and the slow ones, of a window, none counted beyond the requests before it. */
  function ErrorsIn(es: seq<Event>): nat {
    if es == [] then 0
    else
      var init := es[..|es| - 1];
      var e, before := es[|es| - 1], ErrorsIn(init);
      if e.Response? && e.status >= 500 && before < Requests(init) then before + 1 else before
  }

  function SlowIn(es: seq<Event>, limit: real): nat {
    if es == [] then 0
    else
      var init := es[..|es| - 1];
      var e, before := es[|es| - 1], SlowIn(init, limit);
      if e.Response? && e.seconds >= limit && before < Requests(init) then before + 1 else before
  }

  /** The tick that ends the degraded window, or the statistics window of a closed breaker. */
  predicate Ends(c: Config, s: State, e: Event) {
    e.Tick? && if s.degraded then s.delay >= c.degradedTimeWindow else s.tick >= c.statTimeWindow
  }

  /** The events of the present window. */
  function Window(c: Config, es: seq<Event>): seq<Event> {
    if es == [] then []
    else
      var n := |es| - 1;
      if Ends(c, Exec(c, Fresh(c), es[..n]), es[n]) then [] else Window(c, es[..n]) + [es[n]]
  }

  lemma {:induction false} RequestsSnoc(es: seq<Event>, e: Event)
    ensures Requests(es + [e]) == Requests(es) + if e.Request? then 1 else 0
  {
    if es == [] {
      assert [] + [e] == [e] && [e][1..] == [];
    } else {
      assert (es + [e])[1..] == es[1..] + [e];
      RequestsSnoc(es[1..], e);
    }
  }

  lemma CountsSnoc(es: seq<Event>, e: Event, limit: real)
    ensures ErrorsIn(es + [e]) == ErrorsIn(es)
              + if e.Response? && e.status >= 500 && ErrorsIn(es) < Requests(es) then 1 else 0
    ensures SlowIn(es + [e], limit) == SlowIn(es, limit)
              + if e.Response? && e.seconds >= limit && SlowIn(es, limit) < Requests(es) then 1 else 0
  {
    assert (es + [e])[..|es|] == es;
  }

  /** The counters hold the requests, the error responses and the slow responses of the window `w`; a kind of response
      without a threshold is not counted. */
  ghost predicate Counts(c: Config, t: State, w: seq<Event>) {
    && t.total == Requests(w)
    && t.errorAmount == (if c.errorAmountThreshold > 0 || c.errorRatioThreshold > 0.0 then ErrorsIn(w) else 0)
    && t.slowAmount ==
       (if c.slowAmountThreshold > 0 || c.slowRatioThreshold > 0.0 then SlowIn(w, c.slowTimeThreshold) else 0)
  }

  lemma CountsResponse(c: Config, s: State, w: seq<Event>, status: int, seconds: real)
    requires Counts(c, s, w)
    ensures Counts(c, Next(c, s, Response(status, seconds)), w + [Response(status, seconds)])
  {
    RequestsSnoc(w, Response(status, seconds));
    CountsSnoc(w, Response(status, seconds), c.slowTimeThreshold);
  }

  lemma CountsStep(c: Config, s: State, w: seq<Event>, e: Event)
    requires Counts(c, s, w) && !s.degraded && !Ends(c, s, e)
    ensures Counts(c, Next(c, s, e), w + [e])
  {
    if e.Response? {
      CountsResponse(c, s, w, e.status, e.seconds);
    } else {
      RequestsSnoc(w, e);
      CountsSnoc(w, e, c.slowTimeThreshold);
    }
  }

  lemma EndsEmpty(c: Config, s: State, e: Event)
    requires Ends(c, s, e)
    ensures Counts(c, Next(c, s, e), [])
  {}

  lemma OpenUntilItEnds(c: Config, s: State, e: Event)
    requires s.degraded && !Ends(c, s, e)
    ensures Next(c, s, e).degraded
  {}

  /** After every run that leaves the breaker closed, its counters hold those of the present window. */
  lemma {:induction false} WindowCounts(c: Config, es: seq<Event>)
    requires !Exec(c, Fresh(c), es).degraded
    ensures Counts(c, Exec(c, Fresh(c), es), Window(c, es))
    decreases |es|
  {
    if es != [] {
      var n := |es| - 1;
      var s := Exec(c, Fresh(c), es[..n]);
      ExecSnoc(c, Fresh(c), es);
      if Ends(c, s, es[n]) {
        EndsEmpty(c, s, es[n]);
      } else {
        if s.degraded {
          OpenUntilItEnds(c, s, es[n]);
        }
        WindowCounts(c, es[..n]);
        CountsStep(c, s, Window(c, es[..n]), es[n]);
      }
    }
  }

  lemma RatioAsProduct(k: nat, n: nat, ratio: real)
    requires n > 0
    ensures k as real / n as real >= ratio <==> k as real >= ratio * n as real
  {
    var x, y := k as real, n as real;
    assert x == x / y * y;
    if x / y >= ratio {
      ScalesUp(x / y, ratio, y);
    } else {
      assert ratio * y > x / y * y;
    }
  }

  lemma ScalesUp(a: real, b: real, y: real)
    requires a >= b && y > 0.0
    ensures a * y >= b * y
  {}

  /** `k` of `n` responses, and one more unless all `n` are counted, reach the ratio. */
  predicate Reaches(k: nat, n: nat, ratio: real, least: nat) {
    ratio > 0.0 && n > 0 && n >= least && (if k < n then k + 1 else k) as real >= ratio * n as real
  }

  lemma TooManyReaches(c: Config, k: nat, n: nat, ratio: real)
    ensures TooMany(c, Capped(k, n), n, ratio) <==> Reaches(k, n, ratio, c.minRequestAmount)
  {
    if n > 0 {
      RatioAsProduct(if k < n then k + 1 else k, n, ratio);
    }
  }

  /** After every run, a response opens a closed breaker exactly when it is an error, or slow, and it is at least the
      threshold's one since that quota was last refilled, or such responses make up the ratio of the requests in the
      present window. */
  lemma OpensExactly(c: Config, es: seq<Event>, status: int, seconds: real)
    requires !Exec(c, Fresh(c), es).degraded
    ensures var w := Window(c, es);
            var n, least := Requests(w), c.minRequestAmount;
            Next(c, Exec(c, Fresh(c), es), Response(status, seconds)).degraded <==>
            || (status >= 500 &&
                (|| (c.errorAmountThreshold > 0 && ErrorsSince(es) + 1 >= c.errorAmountThreshold)
                 || Reaches(ErrorsIn(w), n, c.errorRatioThreshold, least)))
            || (seconds >= c.slowTimeThreshold &&
                (|| (c.slowAmountThreshold > 0 && SlowSince(es, c.slowTimeThreshold) + 1 >= c.slowAmountThreshold)
                 || Reaches(SlowIn(w, c.slowTimeThreshold), n, c.slowRatioThreshold, least)))
  {
    var t := Exec(c, Fresh(c), es);
    QuotasCount(c, es);
    WindowCounts(c, es);
    TooManyReaches(c, t.errorAmount, t.total, c.errorRatioThreshold);
    TooManyReaches(c, t.slowAmount, t.total, c.slowRatioThreshold);
  }

  /** Whatever ran before, a breaker without amount thresholds only opens on at least `minRequestAmount` requests of the
      last `statTimeWindow + 1` seconds. */
  lemma RatioNeedsRecentRequests(c: Config, before: seq<Event>, recent: seq<Event>, status: int, seconds: real)
    requires c.errorAmountThreshold == c.slowAmountThreshold == 0 && Ticks(recent) > c.statTimeWindow
    requires var s := Exec(c, Fresh(c), before + recent);
             !s.degraded && Next(c, s, Response(status, seconds)).degraded
    ensures Requests(recent) >= c.minRequestAmount
  {
    OpensExactly(c, before + recent, status, seconds);
    WindowCounts(c, before + recent);
    ExecAppend(c, Fresh(c), before, recent);
    EveryRun(c, Fresh(c), before);
    WindowBound(c, Exec(c, Fresh(c), before), recent);
  }
}
