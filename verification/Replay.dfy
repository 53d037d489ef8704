/** One HTTP request through the outbound proxy: route failover around endpoint retry or failover. */
module Replay {
  import opened Words

  /** An endpoint and the path prefix it is published under, empty when it has none. */
  datatype Endpoint = Endpoint(id: string, prefix: string)

  /** A cluster's retry policy, and what its balancers pick for this request. */
  datatype Cluster = Cluster(numRetries: nat, retryOn: set<int>, target: Option<Endpoint>, failover: Option<Endpoint>)

  /** What the matched route rule picks: its weighted cluster, and its zero-weight one to fail over to. */
  datatype Route = Route(cluster: Option<Cluster>, failover: Option<Cluster>)

  datatype Attempt = Attempt(target: Option<Endpoint>, path: string, status: Option<int>)

  /** The response status of each attempt in turn; none when the upstream gave no response head. */
  type Replies = nat -> Option<int>

  predicate Failed(status: Option<int>) {
    status.None? || status.value == 0 || status.value > 499
  }

  predicate Retryable(c: Cluster, status: Option<int>) {
    status.Some? && status.value in c.retryOn
  }

  predicate NeedRetry(c: Option<Cluster>) {
    c.Some? && c.value.numRetries > 0
  }

  function Prefix(t: Option<Endpoint>): string {
    if t.Some? then t.value.prefix else ""
  }

  // ----- One pass through the load-balancing pipeline -----

  predicate Follows(run: seq<Attempt>, path: string, reply: Replies, start: nat) {
    run != [] && forall i | 0 <= i < |run| :: run[i].path == path && run[i].status == reply(start + i)
  }

  /** Retry: the same target until a status that is not to be retried, or until the retries are used up. */
  predicate RetryPass(run: seq<Attempt>, c: Cluster, used: nat) {
    && run != []
    && (forall i | 0 <= i < |run| :: run[i].target == run[0].target)
    && (forall i | 0 <= i < |run| - 1 :: Retryable(c, run[i].status))
    && (Retryable(c, run[|run| - 1].status) ==> used + |run| - 1 >= c.numRetries)
    && (|run| > 1 ==> used + |run| - 1 <= c.numRetries)
  }

  /** Failover: a second endpoint exactly when the first one failed. */
  predicate FailoverPass(run: seq<Attempt>, spare: Endpoint) {
    && 1 <= |run| <= 2
    && (|run| == 2 <==> Failed(run[0].status))
    && (|run| == 2 ==> run[1].target == Some(spare))
  }

  predicate Pass(run: seq<Attempt>, c: Option<Cluster>, target: Option<Endpoint>, spare: Option<Endpoint>, used: nat) {
    && run != [] && run[0].target == target
    && if NeedRetry(c) then RetryPass(run, c.value, used)
       else if spare.Some? then FailoverPass(run, spare.value)
       else |run| == 1
  }

  /** What a pass of `n` attempts leaves behind: retries used, and the spare endpoint if still unused. */
  function Retried(c: Option<Cluster>, n: nat): nat
    requires n > 0
  {
    if NeedRetry(c) then n - 1 else 0
  }

  function Unused(c: Option<Cluster>, spare: Option<Endpoint>, n: nat): Option<Endpoint> {
    if !NeedRetry(c) && n == 2 then None else spare
  }

  /** The spare endpoint of a pass: the cluster's own, or whatever was at hand. */
  function Spare(c: Option<Cluster>, left: Option<Endpoint>): Option<Endpoint> {
    if c.Some? && c.value.failover.Some? then c.value.failover else left
  }

  class Exchange {
    var path: string
    var origPath: string
    var failoverCluster: Option<Cluster>
    var cluster: Option<Cluster>
    var retryCount: nat
    var failoverObject: Option<Endpoint>
    var target: Option<Endpoint>
    var attempts: seq<Attempt>

    constructor (path: string)
      ensures this.path == path && origPath == "" && failoverCluster == None && cluster == None
      ensures retryCount == 0 && failoverObject == None && target == None && attempts == []
    {
      this.path, origPath, failoverCluster, cluster := path, "", None, None;
      retryCount, failoverObject, target, attempts := 0, None, None, [];
    }

    /** The routing module on a request: restore the path, then take the failover cluster or match a rule. */
    method StartRoute(route: Route)
      modifies this`path, this`origPath, this`failoverCluster, this`cluster
      ensures path == (if old(origPath) != "" then old(origPath) else old(path)) && origPath == path
      ensures old(failoverCluster).Some? ==> cluster == old(failoverCluster) && failoverCluster == None
      ensures old(failoverCluster).None? ==> cluster == route.cluster && failoverCluster == route.failover
    {
      if origPath != "" {
        path := origPath;
      } else {
        origPath := path;
      }
      if failoverCluster.Some? {
        cluster := failoverCluster;
        failoverCluster := None;
      } else {
        cluster := route.cluster;
        failoverCluster := route.failover;
      }
    }

    /** The load-balancing module on a request: pick the endpoints and put the target's prefix on the path.
        `anew` is whether the module's variables start anew. */
    method StartCluster(anew: bool)
      modifies this`retryCount, this`failoverObject, this`target, this`path
      ensures retryCount == if anew then 0 else old(retryCount)
      ensures target == if cluster.Some? then cluster.value.target else if anew then None else old(target)
      ensures path == (if cluster.Some? then Prefix(target) else "") + old(path)
      ensures failoverObject == Spare(cluster, if anew then None else old(failoverObject))
    {
      if anew {
        retryCount, failoverObject, target := 0, None, None;
      }
      if cluster.Some? {
        if cluster.value.failover.Some? {
          failoverObject := cluster.value.failover;
        }
        target := cluster.value.target;
        if target.Some? && target.value.prefix != "" {
          path := target.value.prefix + path;
        }
      }
    }

    method Upstream(reply: Replies) returns (status: Option<int>)
      modifies this`attempts
      ensures status == reply(|old(attempts)|) && attempts == old(attempts) + [Attempt(target, path, status)]
    {
      status := reply(|attempts|);
      attempts := attempts + [Attempt(target, path, status)];
    }

    method RetryLoop(c: Cluster, reply: Replies) returns (status: Option<int>, ghost run: seq<Attempt>)
      modifies this`attempts, this`retryCount
      ensures attempts == old(attempts) + run && Follows(run, path, reply, |old(attempts)|)
      ensures RetryPass(run, c, old(retryCount)) && run[0].target == target
      ensures status == run[|run| - 1].status && retryCount == old(retryCount) + |run| - 1
    {
      status := Upstream(reply);
      run := [Attempt(target, path, status)];
      while Retryable(c, status) && retryCount < c.numRetries
        invariant attempts == old(attempts) + run && run != []
        invariant forall i | 0 <= i < |run| ::
            run[i].target == target && run[i].path == path && run[i].status == reply(|old(attempts)| + i)
        invariant forall i | 0 <= i < |run| - 1 :: Retryable(c, run[i].status)
        invariant status == run[|run| - 1].status
        invariant retryCount == old(retryCount) + |run| - 1
        invariant |run| > 1 ==> retryCount <= c.numRetries
        decreases c.numRetries - retryCount
      {
        retryCount := retryCount + 1;
        status := Upstream(reply);
        run := run + [Attempt(target, path, status)];
      }
    }

    /** Replays on failure for as long as a spare endpoint is at hand, which is once. */
    method FailoverLoop(reply: Replies) returns (status: Option<int>, ghost run: seq<Attempt>)
      modifies this`attempts, this`target, this`failoverObject
      ensures attempts == old(attempts) + run && Follows(run, path, reply, |old(attempts)|)
      ensures run[0].target == old(target) && status == run[|run| - 1].status
      ensures if old(failoverObject).Some? then FailoverPass(run, old(failoverObject).value) else |run| == 1
      ensures failoverObject == if |run| == 2 then None else old(failoverObject)
    {
      status := Upstream(reply);
      run := [Attempt(target, path, status)];
      while failoverObject.Some? && Failed(status)
        invariant attempts == old(attempts) + run && Follows(run, path, reply, |old(attempts)|)
        invariant run[0].target == old(target) && status == run[|run| - 1].status
        invariant failoverObject.Some? ==> |run| == 1 && failoverObject == old(failoverObject)
        invariant failoverObject.None? && old(failoverObject).None? ==> |run| == 1
        invariant failoverObject.None? && old(failoverObject).Some? ==>
                    |run| == 2 && Failed(run[0].status) && run[1].target == old(failoverObject)
        decreases if failoverObject.Some? then 1 else 0
      {
        target := failoverObject;
        failoverObject := None;
        status := Upstream(reply);
        run := run + [Attempt(target, path, status)];
      }
    }

    /** The endpoint level: retry, or fail over, or a single attempt. */
    method RunCluster(reply: Replies) returns (status: Option<int>, ghost run: seq<Attempt>)
      modifies this`attempts, this`retryCount, this`target, this`failoverObject
      ensures attempts == old(attempts) + run && Follows(run, path, reply, |old(attempts)|)
      ensures status == run[|run| - 1].status && Pass(run, cluster, old(target), old(failoverObject), old(retryCount))
      ensures retryCount == old(retryCount) + Retried(cluster, |run|)
      ensures failoverObject == Unused(cluster, old(failoverObject), |run|)
    {
      if NeedRetry(cluster) {
        status, run := RetryLoop(cluster.value, reply);
      } else {
        status, run := FailoverLoop(reply);
      }
    }

    /** One pass of the routing module's replay. */
    method RunRoute(route: Route, anew: bool, reply: Replies) returns (status: Option<int>, ghost run: seq<Attempt>)
      modifies this
      ensures cluster == if old(failoverCluster).Some? then old(failoverCluster) else route.cluster
      ensures failoverCluster == if old(failoverCluster).Some? then None else route.failover
      ensures origPath == if old(origPath) != "" then old(origPath) else old(path)
      ensures path == (if cluster.Some? then Prefix(cluster.value.target) else "") + origPath
      ensures attempts == old(attempts) + run && Follows(run, path, reply, |old(attempts)|)
              && status == run[|run| - 1].status
      ensures var used := if anew then 0 else old(retryCount);
              var spare := Spare(cluster, if anew then None else old(failoverObject));
              var first := if cluster.Some? then cluster.value.target else if anew then None else old(target);
              && Pass(run, cluster, first, spare, used)
              && retryCount == used + Retried(cluster, |run|) && failoverObject == Unused(cluster, spare, |run|)
    {
      StartRoute(route);
      StartCluster(anew);
      status, run := RunCluster(reply);
    }

    ghost predicate Began(path: string)
      reads this
    {
      this.path == path && origPath == "" && failoverCluster == None && attempts == []
      && retryCount == 0 && failoverObject == None && target == None
    }

    /** Where a first pass of `n` attempts over a request for `path` leaves the variables. */
    ghost predicate Passed(route: Route, path: string, n: nat)
      requires n > 0
      reads this
    {
      && failoverCluster == route.failover && origPath == path
      && this.path == Prefix(FirstTarget(route)) + path
      && retryCount == Retried(route.cluster, n)
         && failoverObject == Unused(route.cluster, Spare(route.cluster, None), n)
    }

    method ServeFirst(route: Route, anew: bool, reply: Replies, ghost path0: string)
        returns (status: Option<int>, ghost run: seq<Attempt>)
      requires Began(path0)
      modifies this
      ensures attempts == run && FirstPass(run, route, path0, reply) && status == run[|run| - 1].status
      ensures Passed(route, path0, |run|)
    {
      status, run := RunRoute(route, anew, reply);
    }

    method ServeAgain(route: Route, anew: bool, reply: Replies, ghost path0: string)
        returns (status: Option<int>, ghost run: seq<Attempt>)
      requires attempts != [] && route.failover.Some? && Passed(route, path0, |attempts|)
      modifies this
      ensures attempts == old(attempts) + run && run != [] && status == run[|run| - 1].status
      ensures SecondPass(run, route, PassedPath(route, path0), anew, reply, |old(attempts)|) && failoverCluster == None
    {
      status, run := RunRoute(route, anew, reply);
    }

    /** The whole request: replays on failure for as long as a failover cluster is at hand, which is once.
        `anew` is whether a replay starts the load-balancing module's variables anew. */
    method Serve(route: Route, anew: bool, reply: Replies)
        returns (status: Option<int>, ghost run1: seq<Attempt>, ghost run2: seq<Attempt>)
      requires Began(path)
      modifies this
      ensures attempts == run1 + run2 && attempts != [] && status == attempts[|attempts| - 1].status
      ensures Served(run1, run2, route, old(path), anew, reply)
    {
      ghost var path0 := path;
      status, run1 := ServeFirst(route, anew, reply, path0);
      run2 := [];
      while failoverCluster.Some? && Failed(status)
        invariant attempts == run1 + run2 && attempts != [] && status == attempts[|attempts| - 1].status
        invariant FirstPass(run1, route, path0, reply)
        invariant run2 == [] ==> Passed(route, path0, |run1|)
        invariant run2 != [] ==>
                    && failoverCluster == None && route.failover.Some? && Failed(run1[|run1| - 1].status)
                    && SecondPass(run2, route, PassedPath(route, path0), anew, reply, |run1|)
        decreases if failoverCluster.Some? then 1 else 0
      {
        status, run2 := ServeAgain(route, anew, reply, path0);
      }
    }
  }

  function FirstTarget(route: Route): Option<Endpoint> {
    if route.cluster.Some? then route.cluster.value.target else None
  }

  /** The two passes over a request for `path`: the second one exactly when the first ended in failure and the
      route has a cluster to fail over to. */
  predicate Served(run1: seq<Attempt>, run2: seq<Attempt>, route: Route, path: string, anew: bool, reply: Replies) {
    && FirstPass(run1, route, path, reply)
    && (run2 != [] <==> route.failover.Some? && Failed(run1[|run1| - 1].status))
    && (run2 != [] ==> SecondPass(run2, route, PassedPath(route, path), anew, reply, |run1|))
  }

  predicate FirstPass(run: seq<Attempt>, route: Route, path: string, reply: Replies) {
    && Follows(run, Prefix(FirstTarget(route)) + path, reply, 0)
    && Pass(run, route.cluster, FirstTarget(route), Spare(route.cluster, None), 0)
  }

  /** The path the second pass starts from: the original one, unless that is empty. */
  function PassedPath(route: Route, path: string): string {
    if path != "" then path
    else Prefix(FirstTarget(route)) + path
  }

  /** With variables that do not start anew, the first pass's retries stay used and its spare endpoint stays
      at hand. */
  predicate SecondPass(run: seq<Attempt>, route: Route, path: string, anew: bool, reply: Replies, first: nat)
    requires route.failover.Some? && first > 0
  {
    var c := route.failover.value;
    && Follows(run, Prefix(c.target) + path, reply, first)
    && Pass(run, Some(c), c.target, SecondSpare(route, anew, first), SecondUsed(route, anew, first))
  }

  function SecondSpare(route: Route, anew: bool, first: nat): Option<Endpoint> {
    Spare(route.failover, if anew then None else Unused(route.cluster, Spare(route.cluster, None), first))
  }

  function SecondUsed(route: Route, anew: bool, first: nat): nat
    requires first > 0
  {
    if anew then 0 else Retried(route.cluster, first)
  }

  // ----- What a served request promises -----

  /** The most attempts one pass can make. */
  function Most(c: Option<Cluster>): nat {
    if NeedRetry(c) then c.value.numRetries + 1 else 2
  }

  lemma PassBound(run: seq<Attempt>, c: Option<Cluster>, target: Option<Endpoint>, spare: Option<Endpoint>, used: nat)
    requires Pass(run, c, target, spare, used)
    ensures |run| <= Most(c)
  {}

  /** Every request ends, after a bounded number of attempts whatever the upstreams answer. */
  lemma AttemptsAreBounded(run1: seq<Attempt>, run2: seq<Attempt>, route: Route, path: string, anew: bool,
                           reply: Replies)
    requires Served(run1, run2, route, path, anew, reply)
    ensures |run1| + |run2| <= Most(route.cluster) + (if route.failover.Some? then Most(route.failover) else 0)
  {
    PassBound(run1, route.cluster, FirstTarget(route), Spare(route.cluster, None), 0);
    if run2 != [] {
      var c := route.failover.value;
      PassBound(run2, Some(c), c.target, SecondSpare(route, anew, |run1|), SecondUsed(route, anew, |run1|));
    }
  }

  /** The attempt asks its own target for the original path. */
  predicate Proper(a: Attempt, path: string) {
    a.path == if a.target.Some? then a.target.value.prefix + path else path
  }

  lemma PrefixCancels(a: string, b: string, path: string)
    ensures a + path == b + path <==> a == b
    ensures a + (b + path) == a + path <==> b == ""
  {
    if a + path == b + path {
      assert |a| == |b|;
      assert (a + path)[..|a|] == a && (b + path)[..|b|] == b;
    }
  }

  /** The first attempt of either pass asks for the original path, except that an empty one comes back with the
      first target's prefix. */
  lemma PathExactly(run1: seq<Attempt>, run2: seq<Attempt>, route: Route, path: string, anew: bool, reply: Replies)
    requires Served(run1, run2, route, path, anew, reply)
    ensures Proper(run1[0], path)
    ensures run2 != [] ==> (Proper(run2[0], path) <==> path != "" || Prefix(FirstTarget(route)) == "")
  {
    if run2 != [] {
      PrefixCancels(Prefix(route.failover.value.target), Prefix(FirstTarget(route)), path);
    }
  }

  /** A request for the empty path that fails over does come back with the first prefix. */
  lemma EmptyPathGrows(first: Cluster, second: Cluster, anew: bool, reply: Replies)
    returns (run1: seq<Attempt>, run2: seq<Attempt>)
    requires first.numRetries == second.numRetries == 0 && first.failover == second.failover == None
    requires Prefix(first.target) != "" && Failed(reply(0))
    ensures Served(run1, run2, Route(Some(first), Some(second)), "", anew, reply) && run2 != [] && !Proper(run2[0], "")
  {
    var p, q := Prefix(first.target), Prefix(second.target);
    run1 := [Attempt(first.target, p + "", reply(0))];
    run2 := [Attempt(second.target, q + (p + ""), reply(1))];
    PathExactly(run1, run2, Route(Some(first), Some(second)), "", anew, reply);
  }

  /** What an empty path has grown by in the second pass. */
  function Grown(route: Route, path: string): string {
    if path == "" then Prefix(FirstTarget(route)) else ""
  }

  /** An attempt that failed over to another endpoint keeps the prefix of the one that failed, in either pass;
      in the second one an empty path has grown besides. */
  lemma SparePathExactly(run1: seq<Attempt>, run2: seq<Attempt>, route: Route, path: string, anew: bool, reply: Replies)
    requires Served(run1, run2, route, path, anew, reply)
    ensures !NeedRetry(route.cluster) && |run1| == 2 ==>
              var spare := Spare(route.cluster, None);
              run1[1].target == spare && (Proper(run1[1], path) <==> Prefix(spare) == Prefix(FirstTarget(route)))
    ensures !NeedRetry(route.failover) && |run2| == 2 ==>
              var spare := SecondSpare(route, anew, |run1|);
              && run2[1].target == spare
              && (Proper(run2[1], path) <==>
                  Prefix(spare) == Prefix(route.failover.value.target) + Grown(route, path))
  {
    if !NeedRetry(route.cluster) && |run1| == 2 {
      PrefixCancels(Prefix(FirstTarget(route)), Prefix(Spare(route.cluster, None)), path);
    }
    if !NeedRetry(route.failover) && |run2| == 2 {
      var target, spare := Prefix(route.failover.value.target), Prefix(SecondSpare(route, anew, |run1|));
      var grown := target + Grown(route, path);
      assert run2[1].path == grown + path;
      PrefixCancels(grown, spare, path);
    }
  }

  /** A spare endpoint with another prefix is so asked for a path that is not its own. */
  lemma SpareGetsAnotherPath(c: Cluster, path: string, anew: bool, reply: Replies) returns (run: seq<Attempt>)
    requires c.numRetries == 0 && c.failover.Some? && Prefix(c.failover) != Prefix(c.target) && Failed(reply(0))
    ensures Served(run, [], Route(Some(c), None), path, anew, reply) && |run| == 2 && !Proper(run[1], path)
  {
    var asked := Prefix(c.target) + path;
    run := [Attempt(c.target, asked, reply(0)), Attempt(c.failover, asked, reply(1))];
    SparePathExactly(run, [], Route(Some(c), None), path, anew, reply);
  }

  /** A pass over a request: its cluster, its attempts, its spare endpoint, the retries used before, and the number of
      attempts before it. */
  datatype PassInfo = PassInfo(c: Option<Cluster>, run: seq<Attempt>, spare: Option<Endpoint>, used: nat, start: nat)

  function First(run1: seq<Attempt>, route: Route): PassInfo {
    PassInfo(route.cluster, run1, Spare(route.cluster, None), 0, 0)
  }

  function Second(run1: seq<Attempt>, run2: seq<Attempt>, route: Route, anew: bool): PassInfo
    requires run1 != []
  {
    PassInfo(route.failover, run2, SecondSpare(route, anew, |run1|), SecondUsed(route, anew, |run1|), |run1|)
  }

  function Last(run1: seq<Attempt>, run2: seq<Attempt>, route: Route, anew: bool): PassInfo
    requires run1 != []
  {
    if run2 == [] then First(run1, route) else Second(run1, run2, route, anew)
  }

  /** How often a pass may ask again: its retries that are not used up, or else once if there is a spare endpoint. */
  function Budget(p: PassInfo): nat {
    if p.c.Some? && p.c.value.numRetries > 0 then
      if p.used < p.c.value.numRetries then p.c.value.numRetries - p.used else 0
    else if p.spare.Some? then 1
    else 0
  }

  /** The answer to attempt `i` of the pass is one to repeat. */
  predicate Repeats(p: PassInfo, reply: Replies, i: nat) {
    var status := reply(p.start + i);
    if p.c.Some? && p.c.value.numRetries > 0 then status.Some? && status.value in p.c.value.retryOn
    else status.None? || status.value == 0 || status.value >= 500
  }

  /** By the answers alone: attempt `k` of the pass is made. */
  predicate Asks(p: PassInfo, reply: Replies, k: nat) {
    k == 0 || (k <= Budget(p) && forall i: nat | i < k :: Repeats(p, reply, i))
  }

  lemma PassExactly(p: PassInfo, target: Option<Endpoint>, path: string, reply: Replies)
    requires Follows(p.run, path, reply, p.start) && Pass(p.run, p.c, target, p.spare, p.used)
    ensures forall k: nat :: Asks(p, reply, k) <==> k < |p.run|
  {
    forall i: nat | i < |p.run|
      ensures Repeats(p, reply, i) <==>
              if NeedRetry(p.c) then Retryable(p.c.value, p.run[i].status) else Failed(p.run[i].status)
    {
      assert p.run[i].status == reply(p.start + i);
    }
    forall k: nat
      ensures Asks(p, reply, k) <==> k < |p.run|
    {
      var last := |p.run| - 1;
      assert k > last && k <= Budget(p) ==> !Repeats(p, reply, last);
    }
  }

  /** Without retries, when another is asked: the spare endpoint of the first pass exactly when there is one and the
      first answer is missing, has no status or is a server error; and the failover cluster exactly when there is one
      and the same holds of the last answer before. */
  lemma FailoverExactly(run1: seq<Attempt>, run2: seq<Attempt>, route: Route, path: string, anew: bool, reply: Replies)
    requires Served(run1, run2, route, path, anew, reply) && route.cluster.Some? && route.cluster.value.numRetries == 0
    ensures var status := reply(0);
            |run1| == if route.cluster.value.failover.Some?
                         && (status.None? || status.value == 0 || status.value >= 500) then 2 else 1
    ensures run1[0].target == route.cluster.value.target
    ensures |run1| == 2 ==> run1[1].target == route.cluster.value.failover
    ensures var status := reply(|run1| - 1);
            run2 != [] <==> route.failover.Some? && (status.None? || status.value == 0 || status.value >= 500)
    ensures run2 != [] ==> run2[0].target == route.failover.value.target
  {
    RepeatsExactly(run1, run2, route, path, anew, reply);
    var p := First(run1, route);
    assert Asks(p, reply, 1) <==> 1 < |run1|;
    assert !Asks(p, reply, 2);
    assert Asks(p, reply, 1) <==> Budget(p) >= 1 && Repeats(p, reply, 0);
  }

  /** When something is asked again: an attempt is made exactly when every answer of its pass before was one to
      repeat, and the pass's retries, or its spare endpoint, allow it. */
  lemma RepeatsExactly(run1: seq<Attempt>, run2: seq<Attempt>, route: Route, path: string, anew: bool, reply: Replies)
    requires Served(run1, run2, route, path, anew, reply)
    ensures forall k: nat :: Asks(First(run1, route), reply, k) <==> k < |run1|
    ensures var status := reply(|run1| - 1);
            run2 != [] <==> route.failover.Some? && (status.None? || status.value == 0 || status.value >= 500)
    ensures run2 != [] ==> forall k: nat :: Asks(Second(run1, run2, route, anew), reply, k) <==> k < |run2|
  {
    PassExactly(First(run1, route), FirstTarget(route), Prefix(FirstTarget(route)) + path, reply);
    if run2 != [] {
      var target := route.failover.value.target;
      PassExactly(Second(run1, run2, route, anew), target, Prefix(target) + PassedPath(route, path), reply);
    }
  }

  /** What the first pass leaves to the second one. If the variables start anew, nothing. If not, the retries the first
      cluster's policy has used are gone, and a spare endpoint that this policy has kept from being tried is at hand
      wherever the failover cluster has none of its own. */
  lemma SecondExactly(run1: seq<Attempt>, run2: seq<Attempt>, route: Route, path: string, anew: bool, reply: Replies)
    requires Served(run1, run2, route, path, anew, reply) && run2 != []
    ensures var c, other := route.cluster, route.failover.value;
            var kept := !anew && c.Some? && c.value.numRetries > 0;
            var gone := if kept then |run1| - 1 else 0;
            && Budget(Second(run1, run2, route, anew)) ==
               (if other.numRetries == 0 then
                 if other.failover.Some? || (kept && c.value.failover.Some?) then 1 else 0
               else if gone < other.numRetries then other.numRetries - gone else 0)
            && (other.numRetries == 0 && |run2| > 1 ==>
                  run2[1].target == if other.failover.Some? then other.failover else c.value.failover)
  {
    RepeatsExactly(run1, run2, route, path, anew, reply);
    var p := First(run1, route);
    assert Asks(p, reply, 1) <==> 1 < |run1|;
    assert Repeats(p, reply, 0) ==> Asks(p, reply, 1) || Budget(p) == 0;
  }

  lemma PassIsUnique(run: seq<Attempt>, other: seq<Attempt>, c: Option<Cluster>, target: Option<Endpoint>,
                     spare: Option<Endpoint>, used: nat, path: string, reply: Replies, start: nat)
    requires Follows(run, path, reply, start) && Pass(run, c, target, spare, used)
    requires Follows(other, path, reply, start) && Pass(other, c, target, spare, used)
    ensures run == other
  {
    var p, q := PassInfo(c, run, spare, used, start), PassInfo(c, other, spare, used, start);
    PassExactly(p, target, path, reply);
    PassExactly(q, target, path, reply);
    assert forall k: nat :: Asks(p, reply, k) <==> Asks(q, reply, k) by {
      assert forall i: nat :: Repeats(p, reply, i) <==> Repeats(q, reply, i);
    }
    assert Asks(p, reply, |run|) <==> |run| < |run|;
    assert Asks(q, reply, |other|) <==> |other| < |other|;
    assert |run| == |other|;
  }

  /** So the answers determine the attempts: their number, their targets and their paths. */
  lemma ServedIsUnique(run1: seq<Attempt>, run2: seq<Attempt>, other1: seq<Attempt>, other2: seq<Attempt>, route: Route,
                       path: string, anew: bool, reply: Replies)
    requires Served(run1, run2, route, path, anew, reply) && Served(other1, other2, route, path, anew, reply)
    ensures run1 == other1 && run2 == other2
  {
    PassIsUnique(run1, other1, route.cluster, FirstTarget(route), Spare(route.cluster, None), 0,
                 Prefix(FirstTarget(route)) + path, reply, 0);
    if run2 != [] {
      var target := route.failover.value.target;
      PassIsUnique(run2, other2, route.failover, target, SecondSpare(route, anew, |run1|),
                   SecondUsed(route, anew, |run1|), Prefix(target) + PassedPath(route, path), reply, |run1|);
    }
  }

  predicate SpareTried(p: PassInfo) {
    !NeedRetry(p.c) && |p.run| == 2
  }

  predicate RetriesLeft(p: PassInfo) {
    NeedRetry(p.c) && p.used + |p.run| <= p.c.value.numRetries
  }

  lemma RetriesLeftExactly(p: PassInfo, reply: Replies)
    requires p.run != [] && forall k: nat :: Asks(p, reply, k) <==> k < |p.run|
    ensures RetriesLeft(p) <==> NeedRetry(p.c) && exists i: nat | i < Budget(p) :: !Repeats(p, reply, i)
  {
    assert !Asks(p, reply, |p.run|);
    if i: nat :| i < Budget(p) && !Repeats(p, reply, i) {
      assert !Asks(p, reply, i + 1);
    }
  }

  /** When a failure is passed on. The route's failover cluster has been tried, if there is one. A spare endpoint
      at hand has been tried exactly when the cluster has no retry policy: the policy shadows it. And retries are
      left over exactly when one of the answers they would have repeated has a status that the policy does not list,
      or is lost: that ends the pass at once. */
  lemma FailureExactly(run1: seq<Attempt>, run2: seq<Attempt>, route: Route, path: string, anew: bool, reply: Replies)
    requires Served(run1, run2, route, path, anew, reply)
    requires var status := reply(|run1| + |run2| - 1); status.None? || status.value == 0 || status.value >= 500
    ensures route.failover.Some? <==> run2 != []
    ensures var p := Last(run1, run2, route, anew);
            && (p.spare.Some? ==> (SpareTried(p) <==> !NeedRetry(p.c)))
            && (RetriesLeft(p) <==> NeedRetry(p.c) && exists i: nat | i < Budget(p) :: !Repeats(p, reply, i))
  {
    RepeatsExactly(run1, run2, route, path, anew, reply);
    RetriesLeftExactly(Last(run1, run2, route, anew), reply);
  }

  /** Under a retry policy a response that is lost is passed on after one attempt, with every retry and the spare
      endpoint unused. */
  lemma LostResponseIsPassedOn(c: Cluster, path: string, anew: bool, reply: Replies) returns (run: seq<Attempt>)
    requires c.numRetries > 0 && c.failover.Some? && reply(0) == None
    ensures Served(run, [], Route(Some(c), None), path, anew, reply) && |run| == 1 && Failed(run[0].status)
    ensures var p := Last(run, [], Route(Some(c), None), anew);
            p.spare.Some? && !SpareTried(p) && RetriesLeft(p)
    ensures forall other: seq<Attempt>, more: seq<Attempt>
              | Served(other, more, Route(Some(c), None), path, anew, reply) :: other + more == run
  {
    run := [Attempt(c.target, Prefix(c.target) + path, None)];
    var route := Route(Some(c), None);
    forall other: seq<Attempt>, more: seq<Attempt> | Served(other, more, route, path, anew, reply)
      ensures other + more == run
    {
      ServedIsUnique(other, more, run, [], route, path, anew, reply);
    }
  }
}
