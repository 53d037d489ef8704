/** Runs of the broker: the queue worker, the dispatcher, its timers and the clock. */
module Dispatch {
  import opened Words
  import opened Broker

  datatype Arrival = Arrival(at: nat, update: Update)

  /** What was published: an update for one proxy, a batch of broadcasts, or, after an idle decade, the last
      broadcast once more. */
  datatype Entry = Direct(update: Update) | Coalesced(at: nat, arrivals: seq<Arrival>) | Spurious(update: Update)

  /** The dispatcher's state and, beside it, what has happened so far. `idle` is when its timers were last
      set to their no-timeout. */
  datatype World = World(
    now: nat,
    s: State,
    offered: Option<Update>,
    received: seq<Arrival>,
    current: seq<Arrival>,
    log: seq<Entry>,
    idle: nat)

  /** A timer that fires while a select case runs is one that fired just before: the select takes any ready case. */
  datatype Event =
    | Advance(to: nat)
    | FireSliding
    | FireMax
    | Process(msg: Message)
    | Receive
    | ExpireSliding
    | ExpireMax

  predicate Enabled(w: World, e: Event) {
    match e
    case Advance(t) => w.now <= t
    case FireSliding => w.s.sliding.due.Some? && w.s.sliding.due.value <= w.now
    case FireMax => w.s.max.due.Some? && w.s.max.due.value <= w.now
    case Process(_) => w.offered.None?
    case Receive => w.offered.Some?
    case ExpireSliding => w.s.sliding.tick
    case ExpireMax => w.s.max.tick
  }

  function Expired(w: World): World {
    w.(s := OnExpire(w.s, w.now), idle := w.now, current := [],
       log := w.log + [if w.current != [] then Coalesced(w.now, w.current) else Spurious(w.s.event)])
  }

  function Next(w: World, e: Event): World
    requires Enabled(w, e)
  {
    match e
    case Advance(t) => w.(now := t)
    case FireSliding => w.(s := w.s.(sliding := Clock(None, true)))
    case FireMax => w.(s := w.s.(max := Clock(None, true)))
    case Process(msg) =>
      var u := ProxyUpdateEvent(msg);
      w.(s := OnProcess(w.s, msg), log := if IsDirect(u) then w.log + [Direct(u.value)] else w.log,
         offered := if IsDirect(u) then None else u)
    case Receive =>
      var a := Arrival(w.now, w.offered.value);
      w.(s := OnFinish(OnReceive(w.s, w.offered.value, w.now), w.offered.value.msg), offered := None,
         received := w.received + [a], current := w.current + [a])
    case ExpireSliding => Expired(w)
    case ExpireMax => Expired(w)
  }

  function Start(now: nat, zero: Update): World {
    World(now, State(Running(now + NO_TIMEOUT), Running(now + NO_TIMEOUT), false, zero, 0, [], 0, 0, []),
          None, [], [], [], now)
  }

  predicate Legal(w: World, es: seq<Event>)
    decreases |es|
  {
    es != [] ==> Enabled(w, es[0]) && Legal(Next(w, es[0]), es[1..])
  }

  function Exec(w: World, es: seq<Event>): World
    requires Legal(w, es)
    decreases |es|
  {
    if es == [] then w else Exec(Next(w, es[0]), es[1..])
  }

  function First(arrivals: seq<Arrival>): nat
    requires arrivals != []
  {
    arrivals[0].at
  }

  function Last(arrivals: seq<Arrival>): Arrival
    requires arrivals != []
  {
    arrivals[|arrivals| - 1]
  }

  // ----- Conservation -----

  /** The broadcasts published so far, batch after batch. */
  function Gathered(log: seq<Entry>): seq<Arrival> {
    if log == [] then [] else
      var rest, e := Gathered(log[..|log| - 1]), log[|log| - 1];
      if e.Coalesced? then rest + e.arrivals else rest
  }

  function Count(log: seq<Entry>, spurious: bool): nat {
    if log == [] then 0 else
      var rest, e := Count(log[..|log| - 1], spurious), log[|log| - 1];
      if (if spurious then e.Spurious? else e.Direct?) then rest + 1 else rest
  }

  /** What reached the subscribers for this entry: of a batch, only its last update. */
  predicate Published(e: Entry, u: Update) {
    match e
    case Direct(v) => u == v && v.topic != PROXY_UPDATE
    case Coalesced(_, arrivals) => arrivals != [] && u == Last(arrivals).update
    case Spurious(v) => u == v
  }

  /** Every update taken from the queue is published at once, published in a batch, waiting in the current
      batch, or being handed over; nothing is lost, duplicated or reordered. */
  ghost predicate Conserved(w: World) {
    && w.received == Gathered(w.log) + w.current
    && w.s.queued == Count(w.log, false) + |w.received| + (if w.offered.Some? then 1 else 0)
    && w.s.dispatched == |w.s.published| == |w.log|
    && forall i | 0 <= i < |w.log| :: Published(w.log[i], w.s.published[i])
  }

  lemma LogSnoc(log: seq<Entry>, e: Entry)
    ensures Gathered(log + [e]) == if e.Coalesced? then Gathered(log) + e.arrivals else Gathered(log)
    ensures Count(log + [e], false) == Count(log, false) + (if e.Direct? then 1 else 0)
    ensures Count(log + [e], true) == Count(log, true) + (if e.Spurious? then 1 else 0)
  {
    assert (log + [e])[..|log|] == log;
  }

  lemma ConservedReceive(w: World)
    requires Conserved(w) && Enabled(w, Receive)
    ensures Conserved(Next(w, Receive))
  {
    var a := Arrival(w.now, w.offered.value);
    assert w.received + [a] == Gathered(w.log) + (w.current + [a]);
  }

  lemma ConservedExpire(w: World)
    requires Conserved(w) && Timed(w)
    ensures Conserved(Expired(w))
  {
    LogSnoc(w.log, if w.current != [] then Coalesced(w.now, w.current) else Spurious(w.s.event));
  }

  lemma ConservedProcess(w: World, msg: Message)
    requires Conserved(w) && Enabled(w, Process(msg))
    ensures Conserved(Next(w, Process(msg)))
  {
    var u := ProxyUpdateEvent(msg);
    if IsDirect(u) {
      LogSnoc(w.log, Direct(u.value));
    }
  }

  lemma ConservedStep(w: World, e: Event)
    requires Conserved(w) && Timed(w) && Enabled(w, e)
    ensures Conserved(Next(w, e))
  {
    match e
    case Receive => ConservedReceive(w);
    case Process(msg) => ConservedProcess(w, msg);
    case ExpireSliding => ConservedExpire(w);
    case ExpireMax => ConservedExpire(w);
    case _ =>
  }

  lemma {:induction false} LogBound(log: seq<Entry>)
    requires forall i | 0 <= i < |log| :: log[i].Coalesced? ==> log[i].arrivals != []
    ensures |log| <= Count(log, false) + Count(log, true) + |Gathered(log)|
  {
    if log != [] {
      LogBound(log[..|log| - 1]);
    }
  }

  // ----- Order -----

  function Updates(arrivals: seq<Arrival>): seq<Update> {
    seq(|arrivals|, i requires 0 <= i < |arrivals| => arrivals[i].update)
  }

  /** The update that the queue worker is handing over. */
  function InHand(w: World): seq<Update> {
    if w.offered.Some? then [w.offered.value] else []
  }

  /** The proxy update, if any, of a message that the worker takes from the queue. */
  function Taken(e: Event): Option<Update> {
    if e.Process? then ProxyUpdateEvent(e.msg) else None
  }

  function Broadcast(e: Event): seq<Update> {
    if Taken(e).Some? && !IsDirect(Taken(e)) then [Taken(e).value] else []
  }

  function Broadcasts(es: seq<Event>): seq<Update> {
    if es == [] then [] else Broadcast(es[0]) + Broadcasts(es[1..])
  }

  function DirectOf(e: Event): seq<Update> {
    if IsDirect(Taken(e)) then [Taken(e).value] else []
  }

  function Directs(es: seq<Event>): seq<Update> {
    if es == [] then [] else DirectOf(es[0]) + Directs(es[1..])
  }

  /** What every message of the run is published as on its own topic. */
  function KubeOf(e: Event): seq<Update> {
    if e.Process? then [KubeEvent(e.msg)] else []
  }

  function KubeEvents(es: seq<Event>): seq<Update> {
    if es == [] then [] else KubeOf(es[0]) + KubeEvents(es[1..])
  }

  function DirectEntries(log: seq<Entry>): seq<Update> {
    if log == [] then [] else
      var rest, e := DirectEntries(log[..|log| - 1]), log[|log| - 1];
      if e.Direct? then rest + [e.update] else rest
  }

  /** Messages whose publication on their own topic waits for the handover. */
  function KubeInHand(w: World): seq<Update> {
    if w.offered.Some? then [KubeEvent(w.offered.value.msg)] else []
  }

  lemma BroadcastStep(w: World, e: Event)
    requires Enabled(w, e)
    ensures Updates(Next(w, e).received) + InHand(Next(w, e)) == Updates(w.received) + InHand(w) + Broadcast(e)
  {
    if e.Receive? {
      assert Updates(Next(w, e).received) == Updates(w.received) + [w.offered.value];
    }
  }

  lemma KubeStep(w: World, e: Event)
    requires Enabled(w, e)
    ensures Next(w, e).s.kube + KubeInHand(Next(w, e)) == w.s.kube + KubeInHand(w) + KubeOf(e)
  {}

  lemma DirectStep(w: World, e: Event)
    requires Enabled(w, e)
    ensures DirectEntries(Next(w, e).log) == DirectEntries(w.log) + DirectOf(e)
  {
    var v := Next(w, e);
    if |v.log| == |w.log| + 1 {
      assert v.log[..|w.log|] == w.log;
    }
  }

  lemma Reassociate(a: seq<Update>, b: seq<Update>, c: seq<Update>)
    ensures a + b + c == a + (b + c)
  {}

  lemma {:induction false} BroadcastsInOrder(w: World, es: seq<Event>)
    requires Legal(w, es)
    ensures Updates(Exec(w, es).received) + InHand(Exec(w, es)) == Updates(w.received) + InHand(w) + Broadcasts(es)
    decreases |es|
  {
    if es != [] {
      BroadcastStep(w, es[0]);
      BroadcastsInOrder(Next(w, es[0]), es[1..]);
      Reassociate(Updates(w.received) + InHand(w), Broadcast(es[0]), Broadcasts(es[1..]));
    }
  }

  lemma {:induction false} DirectsInOrder(w: World, es: seq<Event>)
    requires Legal(w, es)
    ensures DirectEntries(Exec(w, es).log) == DirectEntries(w.log) + Directs(es)
    decreases |es|
  {
    if es != [] {
      DirectStep(w, es[0]);
      DirectsInOrder(Next(w, es[0]), es[1..]);
      Reassociate(DirectEntries(w.log), DirectOf(es[0]), Directs(es[1..]));
    }
  }

  lemma {:induction false} KubeInOrder(w: World, es: seq<Event>)
    requires Legal(w, es)
    ensures Exec(w, es).s.kube + KubeInHand(Exec(w, es)) == w.s.kube + KubeInHand(w) + KubeEvents(es)
    decreases |es|
  {
    if es != [] {
      KubeStep(w, es[0]);
      KubeInOrder(Next(w, es[0]), es[1..]);
      Reassociate(w.s.kube + KubeInHand(w), KubeOf(es[0]), KubeEvents(es[1..]));
    }
  }

  /** In every run the dispatcher receives exactly the broadcasts of the messages processed, in their order, the
      direct updates are published in theirs, and every message on its own topic in the order of the queue; at
      most the last one is still in hand. */
  lemma OrderIsKept(now: nat, zero: Update, es: seq<Event>)
    requires Legal(Start(now, zero), es)
    ensures var w := Exec(Start(now, zero), es);
            && Updates(w.received) + InHand(w) == Broadcasts(es)
            && DirectEntries(w.log) == Directs(es)
            && w.s.kube + KubeInHand(w) == KubeEvents(es)
  {
    BroadcastsInOrder(Start(now, zero), es);
    DirectsInOrder(Start(now, zero), es);
    KubeInOrder(Start(now, zero), es);
  }

  // ----- Timing -----

  function Min(a: nat, b: nat): nat {
    if a <= b then a else b
  }

  /** When a batch falls due: two seconds after its last arrival or ten seconds after its first, in nanoseconds. */
  function Due(arrivals: seq<Arrival>): nat
    requires arrivals != []
  {
    Min(Last(arrivals).at + 2_000_000_000, First(arrivals) + 10_000_000_000)
  }

  predicate SetFor(c: Clock, at: nat, now: nat) {
    Ready(c) && (c.due.Some? ==> c.due.value == at) && (c.tick ==> at <= now)
  }

  /** The loop invariant of the dispatcher, at every select. */
  ghost predicate Timed(w: World) {
    && w.s.pending == (w.current != [])
    && w.s.batchCount == |w.current|
    && (w.current != [] ==>
          && w.s.event == Last(w.current).update
          && SetFor(w.s.sliding, Last(w.current).at + SLIDING_WINDOW, w.now)
          && SetFor(w.s.max, First(w.current) + MAX_WINDOW, w.now))
    && (w.current == [] ==>
       SetFor(w.s.sliding, w.idle + NO_TIMEOUT, w.now) && SetFor(w.s.max, w.idle + NO_TIMEOUT, w.now))
  }

  lemma TimedReceive(w: World)
    requires Timed(w) && Enabled(w, Receive)
    ensures Timed(Next(w, Receive))
  {}

  lemma TimedStep(w: World, e: Event)
    requires Timed(w) && Enabled(w, e)
    ensures Timed(Next(w, e))
  {
    if e.Receive? {
      TimedReceive(w);
    }
  }

  lemma {:induction false} EveryRun(w: World, es: seq<Event>)
    requires Legal(w, es) && Conserved(w) && Timed(w)
    ensures Conserved(Exec(w, es)) && Timed(Exec(w, es))
    decreases |es|
  {
    if es != [] {
      ConservedStep(w, es[0]);
      TimedStep(w, es[0]);
      EveryRun(Next(w, es[0]), es[1..]);
    }
  }

  /** Coalescing only ever saves dispatches, apart from those of an idle decade. */
  lemma DispatchesNeverExceedUpdates(now: nat, zero: Update, es: seq<Event>)
    requires Legal(Start(now, zero), es)
    ensures var w := Exec(Start(now, zero), es);
            w.s.dispatched + |w.current| <= w.s.queued + Count(w.log, true)
  {
    EveryRun(Start(now, zero), es);
    LogBound(Exec(Start(now, zero), es).log);
  }

  /** No dispatch is early, and one without a batch takes an idle decade. */
  lemma NotEarly(now: nat, zero: Update, es: seq<Event>, e: Event)
    requires Legal(Start(now, zero), es)
    requires Enabled(Exec(Start(now, zero), es), e) && (e.ExpireSliding? || e.ExpireMax?)
    ensures var w := Exec(Start(now, zero), es);
            if w.current != [] then Due(w.current) <= w.now else w.idle + NO_TIMEOUT <= w.now
  {
    EveryRun(Start(now, zero), es);
  }

  /** Once the max window has ticked, its case stays enabled until a dispatch, whatever arrives meanwhile. */
  lemma {:induction false} MaxStaysEnabled(w: World, es: seq<Event>)
    requires Legal(w, es) && Timed(w) && w.current != [] && w.s.max.tick
    requires ExpireSliding !in es && ExpireMax !in es
    ensures Exec(w, es).s.max.tick && w.current <= Exec(w, es).current
    decreases |es|
  {
    if es != [] {
      TimedStep(w, es[0]);
      MaxStaysEnabled(Next(w, es[0]), es[1..]);
    }
  }

  // ----- Punctual runs -----

  /** Timers that fire on time and a dispatcher that is never behind: the clock stands still while a tick
      waits and does not run past a deadline. */
  predicate Punctual(w: World, e: Event) {
    e.Advance? ==>
      && !w.s.sliding.tick && !w.s.max.tick
      && (w.s.sliding.due.Some? ==> e.to <= w.s.sliding.due.value)
      && (w.s.max.due.Some? ==> e.to <= w.s.max.due.value)
  }

  predicate OnTime(w: World, es: seq<Event>)
    requires Legal(w, es)
    decreases |es|
  {
    es != [] ==> Punctual(w, es[0]) && OnTime(Next(w, es[0]), es[1..])
  }

  /** Arrivals in time order, each taken in no later than the batch before it fell due. */
  predicate Chained(arrivals: seq<Arrival>) {
    forall k | 0 < k < |arrivals| :: arrivals[k - 1].at <= arrivals[k].at <= Due(arrivals[..k])
  }

  /** A batch is chained and published exactly when it falls due. */
  predicate Closed(e: Entry) {
    e.Coalesced? ==> e.arrivals != [] && Chained(e.arrivals) && e.at == Due(e.arrivals)
  }

  /** Every batch published so far was over by time `t`. */
  ghost predicate OverBy(log: seq<Entry>, t: nat) {
    forall i | 0 <= i < |log| :: log[i].Coalesced? ==> log[i].at <= t
  }

  /** The batches are the greedy ones: each is closed, and starts no earlier than the ones before it ended. */
  ghost predicate Greedy(log: seq<Entry>) {
    forall j | 0 <= j < |log| :: Closed(log[j]) && (log[j].Coalesced? ==> OverBy(log[..j], First(log[j].arrivals)))
  }

  ghost predicate Prompt(w: World) {
    && Greedy(w.log) && OverBy(w.log, w.now) && Chained(w.current)
    && (w.current != [] ==> Last(w.current).at <= w.now <= Due(w.current) && OverBy(w.log, First(w.current)))
  }

  lemma ChainedSnoc(arrivals: seq<Arrival>, a: Arrival)
    requires Chained(arrivals)
    requires arrivals != [] ==> Last(arrivals).at <= a.at <= Due(arrivals)
    ensures Chained(arrivals + [a]) && a.at <= Due(arrivals + [a])
  {
    var all := arrivals + [a];
    forall k | 0 < k < |all|
      ensures all[k - 1].at <= all[k].at <= Due(all[..k])
    {
      assert all[..k] == arrivals[..k];
      if k == |arrivals| {
        assert arrivals[..k] == arrivals;
      }
    }
  }

  lemma PromptReceive(w: World)
    requires Timed(w) && Prompt(w) && Enabled(w, Receive)
    ensures Prompt(Next(w, Receive))
  {
    ChainedSnoc(w.current, Arrival(w.now, w.offered.value));
  }

  lemma GreedySnoc(log: seq<Entry>, e: Entry)
    requires Greedy(log) && Closed(e) && (e.Coalesced? ==> OverBy(log, First(e.arrivals)))
    ensures Greedy(log + [e])
  {
    var all := log + [e];
    assert log[..|log|] == log;
    forall j | 0 <= j < |all|
      ensures Closed(all[j]) && (all[j].Coalesced? ==> OverBy(all[..j], First(all[j].arrivals)))
    {
      assert all[..j] == log[..j];
    }
  }

  lemma PromptExpire(w: World)
    requires Timed(w) && Prompt(w) && (w.s.sliding.tick || w.s.max.tick)
    ensures Prompt(Expired(w))
  {
    GreedySnoc(w.log, if w.current != [] then Coalesced(w.now, w.current) else Spurious(w.s.event));
  }

  lemma PromptProcess(w: World, msg: Message)
    requires Prompt(w) && Enabled(w, Process(msg))
    ensures Prompt(Next(w, Process(msg)))
  {
    var u := ProxyUpdateEvent(msg);
    if IsDirect(u) {
      GreedySnoc(w.log, Direct(u.value));
    }
  }

  lemma PromptStep(w: World, e: Event)
    requires Timed(w) && Prompt(w) && Enabled(w, e) && Punctual(w, e)
    ensures Prompt(Next(w, e))
  {
    match e
    case Receive => PromptReceive(w);
    case Process(msg) => PromptProcess(w, msg);
    case ExpireSliding => PromptExpire(w);
    case ExpireMax => PromptExpire(w);
    case _ =>
  }

  lemma {:induction false} EveryPunctualRun(w: World, es: seq<Event>)
    requires Legal(w, es) && OnTime(w, es) && Timed(w) && Prompt(w)
    ensures Prompt(Exec(w, es))
    decreases |es|
  {
    if es != [] {
      TimedStep(w, es[0]);
      PromptStep(w, es[0]);
      EveryPunctualRun(Next(w, es[0]), es[1..]);
    }
  }

  lemma {:induction false} ChainedOrder(arrivals: seq<Arrival>, i: nat, j: nat)
    requires Chained(arrivals) && i <= j < |arrivals|
    ensures arrivals[i].at <= arrivals[j].at
    decreases j
  {
    if i < j {
      ChainedOrder(arrivals, i, j - 1);
    }
  }

  /** In a punctual run no update is held for longer than ten seconds, published or not. */
  lemma HeldAtMostTheMaxWindow(now: nat, zero: Update, es: seq<Event>)
    requires Legal(Start(now, zero), es) && OnTime(Start(now, zero), es)
    ensures var w := Exec(Start(now, zero), es);
            && (forall i, k | 0 <= i < |w.log| && w.log[i].Coalesced? && 0 <= k < |w.log[i].arrivals| ::
                  w.log[i].arrivals[k].at <= w.log[i].at <= w.log[i].arrivals[k].at + 10_000_000_000)
            && (forall k | 0 <= k < |w.current| :: w.now <= w.current[k].at + 10_000_000_000)
  {
    var w := Exec(Start(now, zero), es);
    EveryPunctualRun(Start(now, zero), es);
    forall i, k | 0 <= i < |w.log| && w.log[i].Coalesced? && 0 <= k < |w.log[i].arrivals|
      ensures w.log[i].arrivals[k].at <= w.log[i].at <= w.log[i].arrivals[k].at + 10_000_000_000
    {
      var arrivals := w.log[i].arrivals;
      assert Closed(w.log[i]);
      ChainedOrder(arrivals, 0, k);
      ChainedOrder(arrivals, k, |arrivals| - 1);
      ClosesLate(arrivals);
    }
    forall k | 0 <= k < |w.current|
      ensures w.now <= w.current[k].at + 10_000_000_000
    {
      ChainedOrder(w.current, 0, k);
    }
  }

  /** A chained batch falls due no earlier than its last arrival. */
  lemma ClosesLate(arrivals: seq<Arrival>)
    requires arrivals != [] && Chained(arrivals)
    ensures Last(arrivals).at <= Due(arrivals)
  {
    var n := |arrivals| - 1;
    if n > 0 {
      assert arrivals[n].at <= Due(arrivals[..n]);
      assert First(arrivals[..n]) == First(arrivals);
    }
  }
}
