/** The message broker: which announcements update proxies, and the dispatcher that coalesces broadcasts. */
module Broker {
  import opened Words

  /** Durations in nanoseconds. */
  const SECOND: nat := 1_000_000_000
  const SLIDING_WINDOW: nat := 2 * SECOND
  const MAX_WINDOW: nat := 10 * SECOND
  const NO_TIMEOUT: nat := 87600 * 3600 * SECOND

  datatype Kind =
    | EndpointAdded | EndpointDeleted | EndpointUpdated
    | ServiceImportAdded | ServiceImportDeleted | ServiceImportUpdated
    | GlobalTrafficPolicyAdded | GlobalTrafficPolicyDeleted | GlobalTrafficPolicyUpdated
    | ProxyUpdate | EcnetConfigUpdated | PodUpdated
    | OtherKind(name: string)

  function KindText(k: Kind): string {
    match k
    case EndpointAdded => "endpoint-added"
    case EndpointDeleted => "endpoint-deleted"
    case EndpointUpdated => "endpoint-updated"
    case ServiceImportAdded => "serviceimport-added"
    case ServiceImportDeleted => "serviceimport-deleted"
    case ServiceImportUpdated => "serviceimport-updated"
    case GlobalTrafficPolicyAdded => "globaltrafficpolicy-added"
    case GlobalTrafficPolicyDeleted => "globaltrafficpolicy-deleted"
    case GlobalTrafficPolicyUpdated => "globaltrafficpolicy-updated"
    case ProxyUpdate => "proxy-update"
    case EcnetConfigUpdated => "ecnetconfig-updated"
    case PodUpdated => "pod-updated"
    case OtherKind(name) => name
  }

  /** The objects a message may carry, with the fields the broker looks at. */
  datatype Object = EcnetConfig(logLevel: string, pluginChains: string) | Pod(scrape: string, uid: string) | Another

  datatype Message = Message(kind: Kind, oldObj: Object, newObj: Object)

  datatype Update = Update(msg: Message, topic: string)

  const PROXY_UPDATE: string := "proxy-update"

  function TopicForProxy(uuid: string): string {
    "proxy:" + uuid
  }

  predicate IsBroadcastKind(k: Kind) {
    !k.EcnetConfigUpdated? && !k.PodUpdated? && !k.OtherKind?
  }

  function ProxyUpdateEvent(msg: Message): Option<Update> {
    if IsBroadcastKind(msg.kind) then Some(Update(msg, PROXY_UPDATE))
    else if msg.kind.EcnetConfigUpdated? then
      if !msg.oldObj.EcnetConfig? || !msg.newObj.EcnetConfig? then None
      else if msg.oldObj.logLevel != msg.newObj.logLevel || msg.oldObj.pluginChains != msg.newObj.pluginChains then
        Some(Update(msg, PROXY_UPDATE))
      else None
    else if msg.kind.PodUpdated? then
      if !msg.oldObj.Pod? || !msg.newObj.Pod? then None
      else if msg.oldObj.scrape != msg.newObj.scrape then Some(Update(msg, TopicForProxy(msg.newObj.uid)))
      else if |msg.newObj.uid| > 0 then Some(Update(msg, PROXY_UPDATE))
      else None
    else None
  }

  /** A proxy's own topic is never the broadcast topic, and no two proxies share one. */
  lemma TopicsAreDistinct(a: string, b: string)
    ensures TopicForProxy(a) != PROXY_UPDATE
    ensures TopicForProxy(a) == TopicForProxy(b) ==> a == b
  {
    assert TopicForProxy(a)[5] == ':' && PROXY_UPDATE[5] == '-';
    assert TopicForProxy(a)[6..] == a && TopicForProxy(b)[6..] == b;
  }

  /** An update goes to a single proxy exactly when a pod's scrape annotation changed, and then to that of the pod. */
  lemma DirectExactly(msg: Message)
    ensures (ProxyUpdateEvent(msg).Some? && ProxyUpdateEvent(msg).value.topic != "proxy-update") <==>
            (msg.kind.PodUpdated? && msg.oldObj.Pod? && msg.newObj.Pod? && msg.oldObj.scrape != msg.newObj.scrape)
    ensures ProxyUpdateEvent(msg).Some? && ProxyUpdateEvent(msg).value.topic != "proxy-update" ==>
              ProxyUpdateEvent(msg).value == Update(msg, "proxy:" + msg.newObj.uid)
  {
    if msg.newObj.Pod? {
      TopicsAreDistinct(msg.newObj.uid, "");
    }
  }

  /** An update goes to every proxy exactly when it is one of an endpoint, of an import, of a traffic policy or of the
      proxies as such, when a setting of the proxies changed, or when a pod with a UID was updated and its scrape
      annotation was not: any other change of a pod, or none. */
  lemma BroadcastExactly(msg: Message)
    ensures ProxyUpdateEvent(msg) == Some(Update(msg, "proxy-update")) <==>
            || msg.kind in {EndpointAdded, EndpointDeleted, EndpointUpdated}
            || msg.kind in {ServiceImportAdded, ServiceImportDeleted, ServiceImportUpdated}
            || msg.kind in {GlobalTrafficPolicyAdded, GlobalTrafficPolicyDeleted, GlobalTrafficPolicyUpdated}
            || msg.kind == ProxyUpdate
            || (msg.kind == EcnetConfigUpdated && msg.oldObj.EcnetConfig? && msg.newObj.EcnetConfig?
                && msg.oldObj != msg.newObj)
            || (msg.kind == PodUpdated && msg.oldObj.Pod? && msg.newObj.Pod?
                && msg.oldObj.scrape == msg.newObj.scrape && msg.newObj.uid != "")
  {
    if msg.newObj.Pod? {
      TopicsAreDistinct(msg.newObj.uid, "");
    }
  }

  /** Messages of any other kind update no proxy, and an update always carries the message it is for. */
  lemma OthersAreSilent(msg: Message)
    ensures msg.kind.OtherKind? ==> ProxyUpdateEvent(msg) == None
    ensures ProxyUpdateEvent(msg).Some? ==> ProxyUpdateEvent(msg).value.msg == msg
  {}

  /** The named kinds have topics of their own, and the broadcasts go to that of `ProxyUpdate`. */
  lemma KindsAreDistinct(a: Kind, b: Kind)
    requires !a.OtherKind? && !b.OtherKind? && KindText(a) == KindText(b)
    ensures a == b
  {
    assert |KindText(a)| == |KindText(b)|;
    assert KindText(a)[0] == KindText(b)[0];
    assert KindText(a)[|KindText(a)| - 3] == KindText(b)[|KindText(b)| - 3];
  }

  /** A pod that did not change at all is announced to every proxy. */
  lemma UnchangedPodBroadcasts(pod: Object)
    requires pod.Pod? && pod.uid != ""
    ensures ProxyUpdateEvent(Message(PodUpdated, pod, pod)) == Some(Update(Message(PodUpdated, pod, pod), PROXY_UPDATE))
  {
    BroadcastExactly(Message(PodUpdated, pod, pod));
  }

  // ----- Timers -----

  /** A Go timer: when it is due, if running, and whether its channel holds a tick. */
  datatype Clock = Clock(due: Option<nat>, tick: bool)

  /** Either running or ticked, never both and never neither. */
  predicate Ready(c: Clock) {
    c.due.Some? <==> !c.tick
  }

  class Timer {
    var due: Option<nat>
    var tick: bool

    ghost function Value(): Clock
      reads this
    {
      Clock(due, tick)
    }

    constructor (at: nat)
      ensures Value() == Clock(Some(at), false)
    {
      due := Some(at);
      tick := false;
    }

    /** The runtime fires the timer. */
    method Fire()
      requires due.Some?
      modifies this
      ensures Value() == Clock(None, true)
    {
      due, tick := None, true;
    }

    method Stop() returns (active: bool)
      modifies this
      ensures active == old(due.Some?) && Value() == Clock(None, old(tick))
    {
      active := due.Some?;
      due := None;
    }

    /** A receive from the timer's channel; it would block if the channel held no tick. */
    method Receive()
      requires tick
      modifies this
      ensures Value() == Clock(old(due), false)
    {
      tick := false;
    }

    method Reset(at: nat)
      modifies this
      ensures Value() == Clock(Some(at), old(tick))
    {
      due := Some(at);
    }

    /** Stop, drain if already expired, reset: from a ready timer the drain never blocks. */
    method Restart(at: nat)
      requires Ready(Value())
      modifies this
      ensures Value() == Clock(Some(at), false)
    {
      var active := Stop();
      if !active {
        Receive();
      }
      Reset(at);
    }
  }

  // ----- The dispatcher -----

  datatype State = State(
    sliding: Clock,
    max: Clock,
    pending: bool,
    event: Update,
    batchCount: nat,
    published: seq<Update>,
    queued: nat,
    dispatched: nat,
    kube: seq<Update>)

  function Running(at: nat): Clock {
    Clock(Some(at), false)
  }

  /** A broadcast arrives: the sliding window restarts; the max window starts with the first of a batch. */
  function OnReceive(s: State, e: Update, now: nat): State {
    s.(sliding := Running(now + SLIDING_WINDOW),
       max := if s.pending then s.max else Running(now + MAX_WINDOW),
       pending := true, event := e, batchCount := s.batchCount + 1)
  }

  /** Either window expires: the last event is published. */
  function OnExpire(s: State, now: nat): State {
    s.(sliding := Running(now + NO_TIMEOUT), max := Running(now + NO_TIMEOUT),
       pending := false, batchCount := 0,
       published := s.published + [s.event], dispatched := s.dispatched + 1)
  }

  predicate IsDirect(e: Option<Update>) {
    e.Some? && e.value.topic != PROXY_UPDATE
  }

  /** What every message is published as, beside any proxy update. */
  function KubeEvent(msg: Message): Update {
    Update(msg, KindText(msg.kind))
  }

  function OnFinish(s: State, msg: Message): State {
    s.(kube := s.kube + [KubeEvent(msg)])
  }

  /** The queue worker: a direct update is published at once, and then the message itself. A broadcast is first
      offered to the dispatcher. */
  function OnProcess(s: State, msg: Message): State {
    var e := ProxyUpdateEvent(msg);
    if e.None? then OnFinish(s, msg)
    else if IsDirect(e) then
      OnFinish(s.(queued := s.queued + 1, published := s.published + [e.value], dispatched := s.dispatched + 1), msg)
    else s.(queued := s.queued + 1)
  }

  class Dispatcher {
    const slidingTimer: Timer
    const maxTimer: Timer
    var dispatchPending: bool
    var event: Update
    var batchCount: nat
    var published: seq<Update>
    var totalQProxyEventCount: nat
    var totalDispatchedProxyEventCount: nat
    var kubePublished: seq<Update>

    ghost function Value(): State
      reads this, slidingTimer, maxTimer
    {
      State(slidingTimer.Value(), maxTimer.Value(), dispatchPending, event, batchCount, published,
            totalQProxyEventCount, totalDispatchedProxyEventCount, kubePublished)
    }

    /** What holds whenever the dispatcher waits in its select. */
    ghost predicate Valid()
      reads this, slidingTimer, maxTimer
    {
      slidingTimer != maxTimer && Ready(slidingTimer.Value()) && Ready(maxTimer.Value())
    }

    constructor (now: nat, zero: Update)
      ensures Valid() && fresh(slidingTimer) && fresh(maxTimer)
      ensures Value() == State(Running(now + NO_TIMEOUT), Running(now + NO_TIMEOUT), false, zero, 0, [], 0, 0, [])
    {
      slidingTimer := new Timer(now + NO_TIMEOUT);
      maxTimer := new Timer(now + NO_TIMEOUT);
      dispatchPending, batchCount, published, event := false, 0, [], zero;
      totalQProxyEventCount, totalDispatchedProxyEventCount, kubePublished := 0, 0, [];
    }

    /** The channel case; nothing comes from a closed channel, and the loop ends. */
    method HandleUpdate(received: Option<Update>, now: nat) returns (exits: bool)
      requires Valid()
      modifies this, slidingTimer, maxTimer
      ensures Valid() && (exits <==> received.None?)
      ensures Value() == if received.Some? then OnReceive(old(Value()), received.value, now) else old(Value())
    {
      if received.None? {
        return true;
      }
      exits := false;
      event := received.value;
      if !dispatchPending {
        slidingTimer.Restart(now + SLIDING_WINDOW);
        maxTimer.Restart(now + MAX_WINDOW);
        dispatchPending := true;
        batchCount := batchCount + 1;
      } else {
        slidingTimer.Restart(now + SLIDING_WINDOW);
        batchCount := batchCount + 1;
      }
    }

    method HandleSlidingExpiry(now: nat)
      requires Valid() && slidingTimer.tick
      modifies this, slidingTimer, maxTimer
      ensures Valid() && Value() == OnExpire(old(Value()), now)
    {
      slidingTimer.Receive();
      slidingTimer.Reset(now + NO_TIMEOUT);
      maxTimer.Restart(now + NO_TIMEOUT);
      Publish();
    }

    method HandleMaxExpiry(now: nat)
      requires Valid() && maxTimer.tick
      modifies this, slidingTimer, maxTimer
      ensures Valid() && Value() == OnExpire(old(Value()), now)
    {
      maxTimer.Receive();
      maxTimer.Reset(now + NO_TIMEOUT);
      slidingTimer.Restart(now + NO_TIMEOUT);
      Publish();
    }

    method Publish()
      modifies this
      ensures Value() == old(Value()).(pending := false, batchCount := 0, published := old(published) + [event],
                                       dispatched := old(totalDispatchedProxyEventCount) + 1)
    {
      published := published + [event];
      totalDispatchedProxyEventCount := totalDispatchedProxyEventCount + 1;
      dispatchPending := false;
      batchCount := 0;
    }

    /** `processEvent`: returns the broadcast, if any, that the worker then sends on the channel. */
    method ProcessEvent(msg: Message) returns (offer: Option<Update>)
      requires Valid()
      modifies this
      ensures Valid() && Value() == OnProcess(old(Value()), msg)
      ensures offer == if IsDirect(ProxyUpdateEvent(msg)) then None else ProxyUpdateEvent(msg)
    {
      offer := None;
      var e := ProxyUpdateEvent(msg);
      if e.Some? {
        totalQProxyEventCount := totalQProxyEventCount + 1;
        if e.value.topic != PROXY_UPDATE {
          published := published + [e.value];
          totalDispatchedProxyEventCount := totalDispatchedProxyEventCount + 1;
        } else {
          offer := e;
          return;
        }
      }
      FinishEvent(msg);
    }

    /** The end of `processEvent`, which a broadcast reaches once the dispatcher has taken it. */
    method FinishEvent(msg: Message)
      modifies this
      ensures Value() == OnFinish(old(Value()), msg)
    {
      kubePublished := kubePublished + [Update(msg, KindText(msg.kind))];
    }
  }
}
