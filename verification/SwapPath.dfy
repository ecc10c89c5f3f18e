/**
 * Candidate swap routes, apps/web/hooks/useSwapPath.ts.
 *
 * Addresses are already in lower case, so token identity is equality.
 */
module SwapPath {
  import opened Results

  datatype Pool = Pool(address: string, token0: string, token1: string, poolType: string, tickSpacing: Option<int>)

  datatype Route = Route(from: string, to: string, stable: bool, factory: string,
                         poolType: string, tickSpacing: Option<int>, poolAddress: string)

  datatype Filter = Any | Basic | Cl

  /** A search node; `visited` are the tokens of its own path only. */
  datatype PathNode = PathNode(token: string, route: seq<Route>, visited: set<string>)

  type PoolIndex = map<string, seq<Pool>>

  function PoolsAt(index: PoolIndex, token: string): seq<Pool> {
    if token in index then index[token] else []
  }

  predicate Allowed(filter: Filter, pool: Pool) {
    match filter
    case Any => true
    case Basic => pool.poolType != "CL"
    case Cl => pool.poolType == "CL"
  }

  /** The route leg through `pool` from `current`. */
  function Hop(pool: Pool, current: string): Route {
    var next := if pool.token0 == current then pool.token1 else pool.token0;
    Route(current, next, false, pool.address, pool.poolType, pool.tickSpacing, pool.address)
  }

  // ---- Walks ------------------------------------------------------------------------------

  ghost predicate IsHop(index: PoolIndex, filter: Filter, current: string, leg: Route) {
    exists k :: 0 <= k < |PoolsAt(index, current)| && Allowed(filter, PoolsAt(index, current)[k])
      && leg == Hop(PoolsAt(index, current)[k], current)
  }

  /** The token reached after `i` legs. */
  function TokenAt(start: string, route: seq<Route>, i: nat): string
    requires i <= |route|
  {
    if i == 0 then start else route[i - 1].to
  }

  ghost predicate IsWalk(index: PoolIndex, filter: Filter, start: string, route: seq<Route>) {
    forall i :: 0 <= i < |route| ==> IsHop(index, filter, TokenAt(start, route, i), route[i])
  }

  ghost predicate NoRepeats(start: string, route: seq<Route>) {
    forall i, j :: 0 <= i < j <= |route| ==> TokenAt(start, route, i) != TokenAt(start, route, j)
  }

  ghost predicate Reaches(index: PoolIndex, filter: Filter, start: string, goal: string, route: seq<Route>) {
    route != [] && IsWalk(index, filter, start, route) && TokenAt(start, route, |route|) == goal
  }

  /** A route without repeated tokens, within the hop bound. */
  ghost predicate IsTarget(index: PoolIndex, filter: Filter, start: string, goal: string, maxHops: int,
                           route: seq<Route>) {
    Reaches(index, filter, start, goal, route) && NoRepeats(start, route) && |route| <= maxHops
  }

  /** Cutting out a loop keeps a walk a walk. */
  lemma CutLoop(index: PoolIndex, filter: Filter, start: string, goal: string, route: seq<Route>, i: nat, j: nat)
    requires start != goal && Reaches(index, filter, start, goal, route)
    requires i < j <= |route| && TokenAt(start, route, i) == TokenAt(start, route, j)
    ensures Reaches(index, filter, start, goal, route[..i] + route[j..])
  {
    hide IsHop, TokenAt;
    var cut := route[..i] + route[j..];
    forall k | 0 <= k < |cut| ensures IsHop(index, filter, TokenAt(start, cut, k), cut[k]) {
      CutHop(index, filter, start, route, i, j, k);
    }
    CutToken(start, route, i, j, |cut|);
    if i == 0 && j == |route| {
      RouteStart(start, route);
    }
  }

  lemma CutHop(index: PoolIndex, filter: Filter, start: string, route: seq<Route>, i: nat, j: nat, k: nat)
    requires IsWalk(index, filter, start, route)
    requires i < j <= |route| && TokenAt(start, route, i) == TokenAt(start, route, j) && k < i + |route| - j
    ensures var cut := route[..i] + route[j..]; IsHop(index, filter, TokenAt(start, cut, k), cut[k])
  {
    hide IsHop, TokenAt;
    var m := if k < i then k else k + (j - i);
    CutToken(start, route, i, j, k);
    assert IsHop(index, filter, TokenAt(start, route, m), route[m]);
  }

  lemma RouteStart(start: string, route: seq<Route>)
    ensures TokenAt(start, route, 0) == start
  {
  }

  lemma CutToken(start: string, route: seq<Route>, i: nat, j: nat, k: nat)
    requires i < j <= |route| && TokenAt(start, route, i) == TokenAt(start, route, j)
    requires k <= i + |route| - j
    ensures TokenAt(start, route[..i] + route[j..], k) == TokenAt(start, route, if k < i then k else k + (j - i))
  {
    var cut := route[..i] + route[j..];
    if 0 < k <= i {
      assert cut[k - 1] == route[k - 1];
    } else if i < k {
      assert cut[k - 1] == route[k - 1 + (j - i)];
    }
  }

  lemma {:induction false} SimpleWalkExists(index: PoolIndex, filter: Filter, start: string, goal: string,
                                            route: seq<Route>)
    returns (simple: seq<Route>)
    requires start != goal && Reaches(index, filter, start, goal, route)
    ensures Reaches(index, filter, start, goal, simple) && NoRepeats(start, simple) && |simple| <= |route|
    decreases |route|
  {
    if NoRepeats(start, route) {
      simple := route;
    } else {
      var i, j :| 0 <= i < j <= |route| && TokenAt(start, route, i) == TokenAt(start, route, j);
      CutLoop(index, filter, start, goal, route, i, j);
      simple := SimpleWalkExists(index, filter, start, goal, route[..i] + route[j..]);
    }
  }

  // ---- The search tree --------------------------------------------------------------------

  /** Nodes that a subtree of `rem` more levels and branching `b` can still enqueue. */
  ghost function Weight(rem: nat, b: nat): nat {
    if rem == 0 then 1 else 1 + b * Weight(rem - 1, b)
  }

  ghost function NodeWeight(node: PathNode, maxHops: int, b: nat): nat {
    Weight(if |node.route| >= maxHops then 0 else maxHops - |node.route|, b)
  }

  ghost function QueueWeight(queue: seq<PathNode>, maxHops: int, b: nat): nat {
    if queue == [] then 0 else NodeWeight(queue[0], maxHops, b) + QueueWeight(queue[1..], maxHops, b)
  }

  lemma {:induction false} QueueWeightSnoc(queue: seq<PathNode>, node: PathNode, maxHops: int, b: nat)
    ensures QueueWeight(queue + [node], maxHops, b) == QueueWeight(queue, maxHops, b) + NodeWeight(node, maxHops, b)
  {
    if queue == [] {
      assert queue + [node] == [node];
    } else {
      assert (queue + [node])[1..] == queue[1..] + [node];
      QueueWeightSnoc(queue[1..], node, maxHops, b);
    }
  }

  lemma {:induction false} DegreeBound(index: PoolIndex) returns (b: nat)
    ensures forall t :: t in index ==> |index[t]| <= b
    decreases |index|
  {
    if index == map[] {
      b := 0;
    } else {
      var t :| t in index;
      var rest := index - {t};
      assert rest.Keys == index.Keys - {t};
      var r := DegreeBound(rest);
      b := if r < |index[t]| then |index[t]| else r;
      forall u | u in index ensures |index[u]| <= b {
        if u != t { assert u in rest && rest[u] == index[u]; }
      }
    }
  }

  ghost function Tokens(start: string, route: seq<Route>): set<string> {
    set i | 0 <= i <= |route| :: TokenAt(start, route, i)
  }

  ghost predicate ValidNode(index: PoolIndex, filter: Filter, start: string, node: PathNode) {
    && IsWalk(index, filter, start, node.route) && NoRepeats(start, node.route)
    && node.token == TokenAt(start, node.route, |node.route|)
    && node.visited == Tokens(start, node.route)
  }

  /** Some node in the queue lies on the way of `route`. */
  ghost predicate Covered(queue: seq<PathNode>, route: seq<Route>) {
    exists i :: 0 <= i < |queue| && queue[i].route < route
  }

  /** The next leg of `route` after the current node goes through one of the pools from `k` on. */
  ghost predicate Pending(filter: Filter, current: PathNode, pools: seq<Pool>, k: nat, route: seq<Route>) {
    && current.route < route
    && exists m ::
      k <= m < |pools| && Allowed(filter, pools[m]) && route[|current.route|] == Hop(pools[m], current.token)
  }

  ghost predicate Leveled(queue: seq<PathNode>, level: nat) {
    && (forall i :: 0 <= i < |queue| ==> level <= |queue[i].route| <= level + 1)
    && forall i, j :: 0 <= i < j < |queue| ==> |queue[i].route| <= |queue[j].route|
  }

  lemma TokenOfPrefix(start: string, prefix: seq<Route>, route: seq<Route>, i: nat)
    requires prefix <= route && i <= |prefix|
    ensures TokenAt(start, prefix, i) == TokenAt(start, route, i)
  {
  }

  lemma ExtendWalk(index: PoolIndex, filter: Filter, start: string, route: seq<Route>, leg: Route)
    requires IsWalk(index, filter, start, route) && IsHop(index, filter, TokenAt(start, route, |route|), leg)
    ensures IsWalk(index, filter, start, route + [leg])
  {
    hide IsHop;
    var r := route + [leg];
    forall i | 0 <= i < |r| ensures IsHop(index, filter, TokenAt(start, r, i), r[i]) {
      TokenOfPrefix(start, route, r, i);
      if i < |route| {
        assert IsHop(index, filter, TokenAt(start, route, i), route[i]);
      }
    }
  }

  lemma ExtendTokens(start: string, route: seq<Route>, leg: Route)
    ensures Tokens(start, route + [leg]) == Tokens(start, route) + {leg.to}
    ensures NoRepeats(start, route) && leg.to !in Tokens(start, route) ==> NoRepeats(start, route + [leg])
  {
    var r, n := route + [leg], |route|;
    assert TokenAt(start, r, n + 1) == leg.to;
    forall i | 0 <= i <= n
      ensures TokenAt(start, r, i) == TokenAt(start, route, i) && TokenAt(start, route, i) in Tokens(start, route) {
      TokenOfPrefix(start, route, r, i);
    }
    forall t | t in Tokens(start, route) ensures t in Tokens(start, r) {
      var i :| 0 <= i <= n && t == TokenAt(start, route, i);
      assert TokenAt(start, r, i) == t;
    }
  }

  lemma ExtendNode(index: PoolIndex, filter: Filter, start: string, node: PathNode, leg: Route)
    requires ValidNode(index, filter, start, node) && IsHop(index, filter, node.token, leg) && leg.to !in node.visited
    ensures ValidNode(index, filter, start, PathNode(leg.to, node.route + [leg], node.visited + {leg.to}))
  {
    hide IsHop, IsWalk, NoRepeats, Tokens;
    ExtendWalk(index, filter, start, node.route, leg);
    ExtendTokens(start, node.route, leg);
  }

  lemma NewTokenAhead(start: string, prefix: seq<Route>, route: seq<Route>)
    requires prefix < route && NoRepeats(start, route)
    ensures route[|prefix|].to !in Tokens(start, prefix)
  {
    var n := |prefix|;
    forall i | 0 <= i <= n ensures TokenAt(start, prefix, i) != route[n].to {
      TokenOfPrefix(start, prefix, route, i);
      assert TokenAt(start, route, i) != TokenAt(start, route, n + 1);
    }
  }

  lemma PrefixExtends(prefix: seq<Route>, route: seq<Route>)
    requires prefix < route
    ensures |prefix| + 1 < |route| ==> prefix + [route[|prefix|]] < route
  {
    assert prefix + [route[|prefix|]] == route[..|prefix| + 1];
  }

  /** A target that passes through a node leaves it by a pool of the node, to a new token. */
  lemma TargetLeavesNode(index: PoolIndex, filter: Filter, start: string, goal: string, maxHops: int,
                         node: PathNode, route: seq<Route>)
    requires ValidNode(index, filter, start, node)
    requires IsTarget(index, filter, start, goal, maxHops, route) && node.route < route
    ensures IsHop(index, filter, node.token, route[|node.route|])
    ensures route[|node.route|].to !in node.visited
    ensures route[|node.route|].to != goal ==> node.route + [route[|node.route|]] < route
  {
    hide IsHop, NoRepeats, Tokens, TokenAt;
    var n := |node.route|;
    TokenOfPrefix(start, node.route, route, n);
    NewTokenAhead(start, node.route, route);
    PrefixExtends(node.route, route);
    LastToken(start, route);
    assert IsHop(index, filter, TokenAt(start, route, n), route[n]);
  }

  lemma LastToken(start: string, route: seq<Route>)
    requires route != []
    ensures TokenAt(start, route, |route|) == route[|route| - 1].to
  {
  }

  /** Dropping the head keeps what it covered pending on the pools of the head. */
  lemma HeadToPending(index: PoolIndex, filter: Filter, start: string, goal: string, maxHops: int,
                      queue: seq<PathNode>, route: seq<Route>)
    requires queue != [] && ValidNode(index, filter, start, queue[0])
    requires IsTarget(index, filter, start, goal, maxHops, route) && Covered(queue, route)
    ensures Covered(queue[1..], route) || Pending(filter, queue[0], PoolsAt(index, queue[0].token), 0, route)
  {
    hide IsTarget, ValidNode, Hop;
    var i :| 0 <= i < |queue| && queue[i].route < route;
    if i == 0 {
      TargetLeavesNode(index, filter, start, goal, maxHops, queue[0], route);
    } else {
      assert queue[1..][i - 1].route < route;
    }
  }

  lemma CoveredGrows(queue: seq<PathNode>, node: PathNode, route: seq<Route>)
    requires Covered(queue, route) || node.route < route
    ensures Covered(queue + [node], route)
  {
    if node.route < route {
      assert (queue + [node])[|queue|].route < route;
    } else {
      var i :| 0 <= i < |queue| && queue[i].route < route;
      assert (queue + [node])[i].route < route;
    }
  }

  /** The queue invariant of one level of the search. */
  ghost predicate Frontier(index: PoolIndex, filter: Filter, start: string, level: nat, queue: seq<PathNode>) {
    Leveled(queue, level) && forall i :: 0 <= i < |queue| ==> ValidNode(index, filter, start, queue[i])
  }

  lemma CoveredIsLonger(queue: seq<PathNode>, level: nat, route: seq<Route>)
    requires Leveled(queue, level) && Covered(queue, route)
    ensures |route| > level
  {
  }

  lemma FrontierSnoc(index: PoolIndex, filter: Filter, start: string, level: nat, queue: seq<PathNode>, node: PathNode)
    requires Frontier(index, filter, start, level, queue)
    requires ValidNode(index, filter, start, node) && |node.route| == level + 1
    ensures Frontier(index, filter, start, level, queue + [node])
  {
    hide ValidNode;
    var q := queue + [node];
    forall i | 0 <= i < |q| ensures ValidNode(index, filter, start, q[i]) && level <= |q[i].route| <= level + 1 {
      if i < |queue| { assert q[i] == queue[i]; }
    }
  }

  /** What becomes of a target once pool `k` of the current node has been looked at. */
  lemma SettlePool(index: PoolIndex, filter: Filter, start: string, goal: string, maxHops: int,
                   current: PathNode, k: nat, queue: seq<PathNode>, route: seq<Route>)
    requires ValidNode(index, filter, start, current) && k < |PoolsAt(index, current.token)|
    requires IsTarget(index, filter, start, goal, maxHops, route)
    requires Covered(queue, route) || Pending(filter, current, PoolsAt(index, current.token), k, route)
    ensures var pool := PoolsAt(index, current.token)[k];
      var leg := Hop(pool, current.token);
      || Covered(queue, route) || Pending(filter, current, PoolsAt(index, current.token), k + 1, route)
      || (Allowed(filter, pool) && leg.to !in current.visited && (leg.to == goal || current.route + [leg] < route))
    ensures |route| > |current.route| || Covered(queue, route)
  {
    hide Hop, ValidNode, IsTarget;
    if !Covered(queue, route) {
      TargetLeavesNode(index, filter, start, goal, maxHops, current, route);
    }
  }

  lemma RootNode(index: PoolIndex, filter: Filter, start: string)
    ensures ValidNode(index, filter, start, PathNode(start, [], {start}))
  {
    assert TokenAt(start, [], 0) == start;
    forall t ensures t in Tokens(start, []) <==> t in {start} { }
  }

  // ---- The search -------------------------------------------------------------------------

  ghost predicate Complete(index: PoolIndex, filter: Filter, start: string, goal: string, maxHops: int,
                           queue: seq<PathNode>) {
    forall route :: IsTarget(index, filter, start, goal, maxHops, route) ==> Covered(queue, route)
  }

  ghost predicate Awaiting(index: PoolIndex, filter: Filter, start: string, goal: string, maxHops: int,
                           current: PathNode, k: nat, queue: seq<PathNode>) {
    forall route :: IsTarget(index, filter, start, goal, maxHops, route) ==>
      Covered(queue, route) || Pending(filter, current, PoolsAt(index, current.token), k, route)
  }

  lemma NothingLeft(index: PoolIndex, filter: Filter, start: string, goal: string, maxHops: int)
    requires Complete(index, filter, start, goal, maxHops, [])
    ensures forall route :: !IsTarget(index, filter, start, goal, maxHops, route)
  {
    hide IsTarget;
  }

  lemma StartComplete(index: PoolIndex, filter: Filter, start: string, goal: string, maxHops: int)
    ensures Frontier(index, filter, start, 0, [PathNode(start, [], {start})])
    ensures Complete(index, filter, start, goal, maxHops, [PathNode(start, [], {start})])
  {
    RootNode(index, filter, start);
    var queue := [PathNode(start, [], {start})];
    forall route | IsTarget(index, filter, start, goal, maxHops, route) ensures Covered(queue, route) {
      assert queue[0].route < route;
    }
  }

  lemma PopHead(index: PoolIndex, filter: Filter, start: string, goal: string, maxHops: int, level: nat,
                queue: seq<PathNode>)
    requires queue != [] && Frontier(index, filter, start, level, queue)
    requires Complete(index, filter, start, goal, maxHops, queue)
    ensures ValidNode(index, filter, start, queue[0])
    ensures Frontier(index, filter, start, |queue[0].route|, queue[1..])
    ensures Awaiting(index, filter, start, goal, maxHops, queue[0], 0, queue[1..])
    ensures |queue[0].route| >= maxHops ==> Complete(index, filter, start, goal, maxHops, queue[1..])
  {
    hide ValidNode, Hop;
    forall i | 0 <= i < |queue[1..]|
      ensures ValidNode(index, filter, start, queue[1..][i])
      ensures |queue[0].route| <= |queue[1..][i].route| <= |queue[0].route| + 1 {
      assert queue[1..][i] == queue[i + 1];
    }
    forall route | IsTarget(index, filter, start, goal, maxHops, route)
      ensures Covered(queue[1..], route)
          || (Pending(filter, queue[0], PoolsAt(index, queue[0].token), 0, route) && |queue[0].route| < maxHops) {
      HeadToPending(index, filter, start, goal, maxHops, queue, route);
    }
  }

  lemma SkipPool(index: PoolIndex, filter: Filter, start: string, goal: string, maxHops: int,
                 current: PathNode, k: nat, queue: seq<PathNode>)
    requires ValidNode(index, filter, start, current) && k < |PoolsAt(index, current.token)|
    requires Awaiting(index, filter, start, goal, maxHops, current, k, queue)
    requires var pool := PoolsAt(index, current.token)[k];
      !Allowed(filter, pool) || Hop(pool, current.token).to in current.visited
    ensures Awaiting(index, filter, start, goal, maxHops, current, k + 1, queue)
  {
    hide ValidNode, Hop, IsTarget, Covered, Pending, Allowed;
    forall route | IsTarget(index, filter, start, goal, maxHops, route)
      ensures Covered(queue, route) || Pending(filter, current, PoolsAt(index, current.token), k + 1, route) {
      SettlePool(index, filter, start, goal, maxHops, current, k, queue, route);
    }
  }

  lemma PushPool(index: PoolIndex, filter: Filter, start: string, goal: string, maxHops: int,
                 current: PathNode, k: nat, queue: seq<PathNode>, node: PathNode)
    requires ValidNode(index, filter, start, current) && k < |PoolsAt(index, current.token)|
    requires Awaiting(index, filter, start, goal, maxHops, current, k, queue)
    requires var leg := Hop(PoolsAt(index, current.token)[k], current.token);
      leg.to != goal && node.route == current.route + [leg]
    ensures Awaiting(index, filter, start, goal, maxHops, current, k + 1, queue + [node])
  {
    hide ValidNode, Hop, IsTarget, Covered, Pending, Allowed;
    forall route | IsTarget(index, filter, start, goal, maxHops, route)
      ensures Covered(queue + [node], route) || Pending(filter, current, PoolsAt(index, current.token), k + 1, route) {
      SettlePool(index, filter, start, goal, maxHops, current, k, queue, route);
      if Covered(queue, route) || node.route < route {
        CoveredGrows(queue, node, route);
      }
    }
  }

  lemma FoundTarget(index: PoolIndex, filter: Filter, start: string, goal: string, maxHops: int,
                    current: PathNode, k: nat, queue: seq<PathNode>)
    requires ValidNode(index, filter, start, current) && k < |PoolsAt(index, current.token)|
    requires Frontier(index, filter, start, |current.route|, queue) && |current.route| < maxHops
    requires Awaiting(index, filter, start, goal, maxHops, current, k, queue)
    requires var pool := PoolsAt(index, current.token)[k];
      var leg := Hop(pool, current.token);
      Allowed(filter, pool) && leg.to !in current.visited && leg.to == goal
    ensures var found := current.route + [Hop(PoolsAt(index, current.token)[k], current.token)];
      && IsTarget(index, filter, start, goal, maxHops, found)
      && forall route :: IsTarget(index, filter, start, goal, maxHops, route) ==> |found| <= |route|
  {
    var leg := Hop(PoolsAt(index, current.token)[k], current.token);
    ExtendNode(index, filter, start, current, leg);
    forall route | IsTarget(index, filter, start, goal, maxHops, route) ensures |route| > |current.route| {
      ShortestSoFar(index, filter, start, goal, maxHops, current, k, queue, route);
    }
  }

  lemma ShortestSoFar(index: PoolIndex, filter: Filter, start: string, goal: string, maxHops: int,
                      current: PathNode, k: nat, queue: seq<PathNode>, route: seq<Route>)
    requires ValidNode(index, filter, start, current) && k < |PoolsAt(index, current.token)|
    requires Leveled(queue, |current.route|)
    requires Awaiting(index, filter, start, goal, maxHops, current, k, queue)
    requires IsTarget(index, filter, start, goal, maxHops, route)
    ensures |route| > |current.route|
  {
    hide ValidNode, Hop, IsTarget, Pending, Allowed;
    SettlePool(index, filter, start, goal, maxHops, current, k, queue, route);
    if Covered(queue, route) {
      CoveredIsLonger(queue, |current.route|, route);
    }
  }

  lemma NoMorePools(index: PoolIndex, filter: Filter, start: string, goal: string, maxHops: int,
                    current: PathNode, queue: seq<PathNode>)
    requires Awaiting(index, filter, start, goal, maxHops, current, |PoolsAt(index, current.token)|, queue)
    ensures Complete(index, filter, start, goal, maxHops, queue)
  {
  }

  lemma ChildrenWeighLess(degree: nat, b: nat, child: nat)
    requires degree <= b
    ensures degree * child < 1 + b * child
  {
  }

  // ---- Which shortest route ---------------------------------------------------------------

  /** The leg goes through the allowed pool at that place of the token's list. */
  ghost predicate Takes(index: PoolIndex, filter: Filter, token: string, place: nat, leg: Route) {
    var pools := PoolsAt(index, token);
    place < |pools| && Allowed(filter, pools[place]) && leg == Hop(pools[place], token)
  }

  ghost predicate IsRide(index: PoolIndex, filter: Filter, start: string, places: seq<nat>, route: seq<Route>) {
    |places| == |route|
    && forall i :: 0 <= i < |route| ==> Takes(index, filter, TokenAt(start, route, i), places[i], route[i])
  }

  /** At the first place where they differ, `a` has the smaller one. */
  ghost predicate LexLess(a: seq<nat>, b: seq<nat>) {
    exists n :: 0 <= n < |a| && n < |b| && a[..n] == b[..n] && a[n] < b[n]
  }

  /** No target of the same length takes smaller places. */
  ghost predicate IsFirst(index: PoolIndex, filter: Filter, start: string, goal: string, maxHops: int,
                          path: seq<Route>) {
    exists best :: IsRide(index, filter, start, best, path) && BeatsAll(index, filter, start, goal, maxHops, best)
  }

  ghost predicate BeatsAll(index: PoolIndex, filter: Filter, start: string, goal: string, maxHops: int,
                           best: seq<nat>) {
    forall route, places ::
      IsTarget(index, filter, start, goal, maxHops, route) && IsRide(index, filter, start, places, route) ==>
      |places| == |best| ==> places == best || LexLess(best, places)
  }

  lemma LexExtends(a: seq<nat>, b: seq<nat>, a1: seq<nat>, b1: seq<nat>)
    requires LexLess(a, b) && a <= a1 && b <= b1
    ensures LexLess(a1, b1)
  {
    var n :| 0 <= n < |a| && n < |b| && a[..n] == b[..n] && a[n] < b[n];
    assert a1[..n] == a[..n] && b1[..n] == b[..n];
  }

  lemma LexLast(a: seq<nat>, i: nat, b: seq<nat>)
    requires a < b && i < b[|a|]
    ensures LexLess(a + [i], b)
  {
    assert (a + [i])[..|a|] == a == b[..|a|];
  }

  /** The places of the queued nodes: of one level in order, and children in the order of their parents. */
  ghost predicate InLine(index: PoolIndex, filter: Filter, start: string, queue: seq<PathNode>, line: seq<seq<nat>>) {
    && |line| == |queue| && (forall i :: 0 <= i < |line| ==> IsRide(index, filter, start, line[i], queue[i].route))
    && (forall i, j :: 0 <= i < j < |line| && |line[i]| == |line[j]| ==> LexLess(line[i], line[j]))
    && (forall i, j :: 0 <= i < |line| && 0 <= j < |line| && |line[j]| == |line[i]| + 1 ==>
          LexLess(line[j][..|line[i]|], line[i]))
  }

  /** The queue comes after the node at `now`, but for children that it or an earlier node left. */
  ghost predicate After(now: seq<nat>, k: nat, line: seq<seq<nat>>) {
    forall i :: 0 <= i < |line| ==>
      && (|line[i]| == |now| ==> LexLess(now, line[i]))
      && (|line[i]| == |now| + 1 ==> LexLess(line[i][..|now|], now) || (line[i][..|now|] == now && line[i][|now|] < k))
  }

  /** Every target still goes through a place in the queue, or through pool `k` or later of `now`. */
  ghost predicate InReach(index: PoolIndex, filter: Filter, start: string, goal: string, maxHops: int,
                          line: seq<seq<nat>>, now: Option<(seq<nat>, nat)>) {
    forall route, places ::
      IsTarget(index, filter, start, goal, maxHops, route) && IsRide(index, filter, start, places, route) ==>
      OnWay(line, places) || (now.Some? && now.value.0 < places && places[|now.value.0|] >= now.value.1)
  }

  ghost predicate OnWay(line: seq<seq<nat>>, places: seq<nat>) {
    exists i :: 0 <= i < |line| && line[i] < places
  }

  lemma StartInLine(index: PoolIndex, filter: Filter, start: string, goal: string, maxHops: int)
    ensures InLine(index, filter, start, [PathNode(start, [], {start})], [[]])
    ensures InReach(index, filter, start, goal, maxHops, [[]], None)
  {
    var line: seq<seq<nat>> := [[]];
    forall route, places
      | IsTarget(index, filter, start, goal, maxHops, route) && IsRide(index, filter, start, places, route)
      ensures OnWay(line, places) {
      assert line[0] < places;
    }
  }

  lemma PopLine(index: PoolIndex, filter: Filter, start: string, goal: string, maxHops: int,
                queue: seq<PathNode>, line: seq<seq<nat>>)
    requires queue != [] && InLine(index, filter, start, queue, line)
    requires InReach(index, filter, start, goal, maxHops, line, None)
    ensures InLine(index, filter, start, queue[1..], line[1..]) && After(line[0], 0, line[1..])
    ensures InReach(index, filter, start, goal, maxHops, line[1..], Some((line[0], 0)))
    ensures |queue[0].route| >= maxHops ==> InReach(index, filter, start, goal, maxHops, line[1..], None)
  {
    hide IsTarget, IsRide, LexLess;
    var rest := line[1..];
    assert forall i :: 0 <= i < |rest| ==> rest[i] == line[i + 1] && queue[1..][i] == queue[i + 1];
    forall route, places
      | IsTarget(index, filter, start, goal, maxHops, route) && IsRide(index, filter, start, places, route)
      ensures OnWay(rest, places) || (line[0] < places && |queue[0].route| < maxHops) {
      RideLength(index, filter, start, goal, maxHops, route, places);
      RideLengthOf(index, filter, start, line[0], queue[0].route);
      var i :| 0 <= i < |line| && line[i] < places;
      if i > 0 {
        assert rest[i - 1] < places;
      }
    }
  }

  lemma HeadRides(index: PoolIndex, filter: Filter, start: string, queue: seq<PathNode>, line: seq<seq<nat>>)
    requires queue != [] && InLine(index, filter, start, queue, line)
    ensures |line| == |queue| && IsRide(index, filter, start, line[0], queue[0].route)
  {
  }

  lemma RideLengthOf(index: PoolIndex, filter: Filter, start: string, places: seq<nat>, route: seq<Route>)
    requires IsRide(index, filter, start, places, route)
    ensures |places| == |route|
  {
  }

  lemma RideLength(index: PoolIndex, filter: Filter, start: string, goal: string, maxHops: int,
                   route: seq<Route>, places: seq<nat>)
    requires IsTarget(index, filter, start, goal, maxHops, route) && IsRide(index, filter, start, places, route)
    ensures |places| == |route| <= maxHops
  {
  }

  /** Rides with a common beginning are routes with a common beginning. */
  lemma {:induction false} RidePrefix(index: PoolIndex, filter: Filter, start: string, a: seq<nat>, r: seq<Route>,
                                      b: seq<nat>, w: seq<Route>, n: nat)
    requires IsRide(index, filter, start, a, r) && IsRide(index, filter, start, b, w) && n <= |a| && a[..n] <= b
    ensures n <= |w| && r[..n] == w[..n] && TokenAt(start, r, n) == TokenAt(start, w, n)
  {
    hide Takes, TokenAt;
    if n == 0 {
      RouteStart(start, r);
      RouteStart(start, w);
    } else {
      assert a[..n][..n - 1] == a[..n - 1];
      RidePrefix(index, filter, start, a, r, b, w, n - 1);
      assert a[n - 1] == a[..n][n - 1] == b[n - 1];
      TakesOne(index, filter, TokenAt(start, r, n - 1), a[n - 1], r[n - 1], w[n - 1]);
      assert r[..n] == r[..n - 1] + [r[n - 1]] && w[..n] == w[..n - 1] + [w[n - 1]];
      TokenAfter(start, r, n);
      TokenAfter(start, w, n);
    }
  }

  lemma TakesOne(index: PoolIndex, filter: Filter, token: string, place: nat, x: Route, y: Route)
    requires Takes(index, filter, token, place, x) && Takes(index, filter, token, place, y)
    ensures x == y
  {
  }

  lemma TokenAfter(start: string, route: seq<Route>, n: nat)
    requires 0 < n <= |route|
    ensures TokenAt(start, route, n) == route[n - 1].to
  {
  }

  /** A target through `now` takes an allowed pool there that leads to a new token. */
  lemma RideLeavesNode(index: PoolIndex, filter: Filter, start: string, goal: string, maxHops: int,
                       current: PathNode, now: seq<nat>, route: seq<Route>, places: seq<nat>)
    requires ValidNode(index, filter, start, current) && IsRide(index, filter, start, now, current.route)
    requires IsTarget(index, filter, start, goal, maxHops, route) && IsRide(index, filter, start, places, route)
    requires now < places
    ensures var pools, k := PoolsAt(index, current.token), places[|now|];
      && k < |pools| && Allowed(filter, pools[k]) && Hop(pools[k], current.token).to !in current.visited
      && (Hop(pools[k], current.token).to == goal <==> |places| == |now| + 1)
  {
    hide ValidNode, Hop, Allowed, IsTarget, TokenAt;
    RideLength(index, filter, start, goal, maxHops, route, places);
    RidePrefix(index, filter, start, now, current.route, places, route, |now|);
    assert current.route == route[..|now|];
    NodeToken(index, filter, start, current);
    assert Takes(index, filter, TokenAt(start, route, |now|), places[|now|], route[|now|]);
    LeavesToNewToken(index, filter, start, goal, maxHops, current, route);
  }

  lemma NodeToken(index: PoolIndex, filter: Filter, start: string, node: PathNode)
    requires ValidNode(index, filter, start, node)
    ensures node.token == TokenAt(start, node.route, |node.route|)
  {
  }

  lemma LeavesToNewToken(index: PoolIndex, filter: Filter, start: string, goal: string, maxHops: int,
                         node: PathNode, route: seq<Route>)
    requires ValidNode(index, filter, start, node)
    requires IsTarget(index, filter, start, goal, maxHops, route) && node.route < route
    ensures route[|node.route|].to !in node.visited
    ensures route[|node.route|].to == goal <==> |route| == |node.route| + 1
  {
    hide ValidNode, IsWalk, IsHop, NoRepeats, TokenAt;
    TargetLeavesNode(index, filter, start, goal, maxHops, node, route);
    LastLegAlone(start, route, |node.route|);
  }

  lemma LastLegAlone(start: string, route: seq<Route>, n: nat)
    requires NoRepeats(start, route) && n < |route|
    ensures route[n].to == TokenAt(start, route, |route|) <==> n + 1 == |route|
  {
    hide NoRepeats;
    TokenAfter(start, route, n + 1);
    if n + 1 < |route| {
      TwoTokens(start, route, n + 1, |route|);
    }
  }

  lemma TwoTokens(start: string, route: seq<Route>, i: nat, j: nat)
    requires NoRepeats(start, route) && i < j <= |route|
    ensures TokenAt(start, route, i) != TokenAt(start, route, j)
  {
  }

  lemma SkipInLine(index: PoolIndex, filter: Filter, start: string, goal: string, maxHops: int,
                   current: PathNode, now: seq<nat>, k: nat, line: seq<seq<nat>>)
    requires ValidNode(index, filter, start, current) && IsRide(index, filter, start, now, current.route)
    requires k < |PoolsAt(index, current.token)|
    requires var pool := PoolsAt(index, current.token)[k];
      !Allowed(filter, pool) || Hop(pool, current.token).to in current.visited
    requires InReach(index, filter, start, goal, maxHops, line, Some((now, k))) && After(now, k, line)
    ensures InReach(index, filter, start, goal, maxHops, line, Some((now, k + 1))) && After(now, k + 1, line)
  {
    hide ValidNode, IsTarget, IsRide, LexLess, Hop, Allowed, OnWay;
    forall route, places
      | IsTarget(index, filter, start, goal, maxHops, route) && IsRide(index, filter, start, places, route)
      ensures OnWay(line, places) || (now < places && places[|now|] >= k + 1) {
      if !OnWay(line, places) {
        RideLeavesNode(index, filter, start, goal, maxHops, current, now, route, places);
      }
    }
  }

  lemma PushInLine(index: PoolIndex, filter: Filter, start: string, goal: string, maxHops: int,
                   current: PathNode, now: seq<nat>, k: nat, queue: seq<PathNode>, node: PathNode, line: seq<seq<nat>>)
    requires ValidNode(index, filter, start, current) && IsRide(index, filter, start, now, current.route)
    requires k < |PoolsAt(index, current.token)| && Allowed(filter, PoolsAt(index, current.token)[k])
    requires var leg := Hop(PoolsAt(index, current.token)[k], current.token);
      leg.to != goal && node.route == current.route + [leg]
    requires InLine(index, filter, start, queue, line) && After(now, k, line) && Leveled(queue, |current.route|)
    requires InReach(index, filter, start, goal, maxHops, line, Some((now, k)))
    ensures InLine(index, filter, start, queue + [node], line + [now + [k]]) && After(now, k + 1, line + [now + [k]])
    ensures InReach(index, filter, start, goal, maxHops, line + [now + [k]], Some((now, k + 1)))
  {
    hide ValidNode, IsTarget, Hop, Allowed;
    NodeToken(index, filter, start, current);
    ExtendRide(index, filter, start, now, current.route, k);
    PushSorted(index, filter, start, now, k, queue, node, line);
    PushInReach(index, filter, start, goal, maxHops, current, now, k, line);
  }

  lemma ExtendRide(index: PoolIndex, filter: Filter, start: string, now: seq<nat>, route: seq<Route>, k: nat)
    requires IsRide(index, filter, start, now, route)
    requires var pools := PoolsAt(index, TokenAt(start, route, |route|)); k < |pools| && Allowed(filter, pools[k])
    ensures var token := TokenAt(start, route, |route|);
      IsRide(index, filter, start, now + [k], route + [Hop(PoolsAt(index, token)[k], token)])
  {
    var token := TokenAt(start, route, |route|);
    var leg := Hop(PoolsAt(index, token)[k], token);
    assert Takes(index, filter, token, k, leg);
    hide Takes, TokenAt, Hop, Allowed;
    var r, places := route + [leg], now + [k];
    forall i | 0 <= i < |r| ensures Takes(index, filter, TokenAt(start, r, i), places[i], r[i]) {
      TokenOfPrefix(start, route, r, i);
      assert i < |route| ==> Takes(index, filter, TokenAt(start, route, i), now[i], route[i]);
    }
  }

  lemma PushSorted(index: PoolIndex, filter: Filter, start: string, now: seq<nat>, k: nat,
                   queue: seq<PathNode>, node: PathNode, line: seq<seq<nat>>)
    requires InLine(index, filter, start, queue, line) && After(now, k, line) && Leveled(queue, |now|)
    requires IsRide(index, filter, start, now + [k], node.route)
    ensures InLine(index, filter, start, queue + [node], line + [now + [k]]) && After(now, k + 1, line + [now + [k]])
  {
    hide IsRide, LexLess;
    var child, longer := now + [k], line + [now + [k]];
    assert child[..|now|] == now;
    forall i | 0 <= i < |line| ensures |now| <= |line[i]| <= |now| + 1 {
      RideLengthOf(index, filter, start, line[i], queue[i].route);
    }
    forall i | 0 <= i < |line| && |line[i]| == |now| + 1 ensures LexLess(line[i], child) {
      assert line[i][..|now|] <= line[i];
      if LexLess(line[i][..|now|], now) {
        LexExtends(line[i][..|now|], now, line[i], child);
      } else {
        LexAtLast(line[i], child, |now|);
      }
    }
    forall i | 0 <= i < |longer| ensures IsRide(index, filter, start, longer[i], (queue + [node])[i].route) {
      if i < |line| {
        assert longer[i] == line[i] && (queue + [node])[i] == queue[i];
      }
    }
  }

  lemma LexAtLast(a: seq<nat>, b: seq<nat>, n: nat)
    requires n < |a| && n < |b| && a[..n] == b[..n] && a[n] < b[n]
    ensures LexLess(a, b)
  {
  }

  lemma PushInReach(index: PoolIndex, filter: Filter, start: string, goal: string, maxHops: int,
                    current: PathNode, now: seq<nat>, k: nat, line: seq<seq<nat>>)
    requires ValidNode(index, filter, start, current) && IsRide(index, filter, start, now, current.route)
    requires k < |PoolsAt(index, current.token)| && Hop(PoolsAt(index, current.token)[k], current.token).to != goal
    requires InReach(index, filter, start, goal, maxHops, line, Some((now, k)))
    ensures InReach(index, filter, start, goal, maxHops, line + [now + [k]], Some((now, k + 1)))
  {
    hide ValidNode, IsTarget, IsRide, Hop, Allowed;
    var longer := line + [now + [k]];
    forall route, places
      | IsTarget(index, filter, start, goal, maxHops, route) && IsRide(index, filter, start, places, route)
      ensures OnWay(longer, places) || (now < places && places[|now|] >= k + 1) {
      if i :| 0 <= i < |line| && line[i] < places {
        assert longer[i] < places;
      } else {
        RideLeavesNode(index, filter, start, goal, maxHops, current, now, route, places);
        if places[|now|] == k {
          assert now + [k] == places[..|now| + 1];
          assert longer[|line|] < places;
        }
      }
    }
  }

  lemma NodeDone(index: PoolIndex, filter: Filter, start: string, goal: string, maxHops: int,
                 current: PathNode, now: seq<nat>, queue: seq<PathNode>, line: seq<seq<nat>>)
    requires ValidNode(index, filter, start, current) && IsRide(index, filter, start, now, current.route)
    requires InReach(index, filter, start, goal, maxHops, line, Some((now, |PoolsAt(index, current.token)|)))
    ensures InReach(index, filter, start, goal, maxHops, line, None)
  {
    hide ValidNode, IsTarget, IsRide, Hop, Allowed, OnWay;
    forall route, places
      | IsTarget(index, filter, start, goal, maxHops, route) && IsRide(index, filter, start, places, route)
      ensures OnWay(line, places) {
      if !OnWay(line, places) {
        RideLeavesNode(index, filter, start, goal, maxHops, current, now, route, places);
      }
    }
  }

  lemma FoundFirst(index: PoolIndex, filter: Filter, start: string, goal: string, maxHops: int,
                   current: PathNode, now: seq<nat>, k: nat, queue: seq<PathNode>, line: seq<seq<nat>>)
    requires ValidNode(index, filter, start, current) && IsRide(index, filter, start, now, current.route)
    requires k < |PoolsAt(index, current.token)| && Allowed(filter, PoolsAt(index, current.token)[k])
    requires InLine(index, filter, start, queue, line) && After(now, k, line) && Leveled(queue, |current.route|)
    requires InReach(index, filter, start, goal, maxHops, line, Some((now, k)))
    ensures IsFirst(index, filter, start, goal, maxHops,
                    current.route + [Hop(PoolsAt(index, current.token)[k], current.token)])
  {
    hide ValidNode, IsTarget, IsRide, Hop, Allowed, LexLess, TokenAt;
    NodeToken(index, filter, start, current);
    RideLengthOf(index, filter, start, now, current.route);
    ExtendRide(index, filter, start, now, current.route, k);
    var best := now + [k];
    assert BeatsAll(index, filter, start, goal, maxHops, best) by {
      forall route, places
        | IsTarget(index, filter, start, goal, maxHops, route) && IsRide(index, filter, start, places, route)
        ensures |places| == |best| ==> places == best || LexLess(best, places) {
        if |places| == |best| {
          assert OnWay(line, places) || (now < places && places[|now|] >= k);
          Beaten(index, filter, start, now, k, queue, line, places);
        }
      }
    }
  }

  lemma Beaten(index: PoolIndex, filter: Filter, start: string, now: seq<nat>, k: nat,
               queue: seq<PathNode>, line: seq<seq<nat>>, places: seq<nat>)
    requires InLine(index, filter, start, queue, line) && After(now, k, line) && Leveled(queue, |now|)
    requires |places| == |now| + 1 && (OnWay(line, places) || (now < places && places[|now|] >= k))
    ensures places == now + [k] || LexLess(now + [k], places)
  {
    hide IsRide, LexLess;
    if i :| 0 <= i < |line| && line[i] < places {
      RideLengthOf(index, filter, start, line[i], queue[i].route);
      assert now <= now + [k];
      LexExtends(now, line[i], now + [k], places);
    } else if places[|now|] > k {
      LexLast(now, k, places);
    } else {
      assert places == places[..|now|] + [places[|now|]];
    }
  }

  /**
   * A shortest allowed route without repeated tokens, or none exactly when there is none. Of the
   * shortest it is the one that takes the earliest pools of the index.
   */
  method BfsFind(tokenIn: string, tokenOut: string, index: PoolIndex, maxHops: int, filter: Filter)
    returns (path: Option<seq<Route>>)
    ensures path.Some? ==> IsTarget(index, filter, tokenIn, tokenOut, maxHops, path.value)
    ensures path.Some? ==>
      forall route :: IsTarget(index, filter, tokenIn, tokenOut, maxHops, route) ==> |path.value| <= |route|
    ensures path.Some? ==> IsFirst(index, filter, tokenIn, tokenOut, maxHops, path.value)
    ensures path.None? ==> forall route :: !IsTarget(index, filter, tokenIn, tokenOut, maxHops, route)
  {
    hide IsTarget, ValidNode, Pending, Tokens, Complete, Awaiting, IsWalk, InLine, After, InReach, IsFirst, IsRide;
    ghost var b := DegreeBound(index);
    var queue := [PathNode(tokenIn, [], {tokenIn})];
    ghost var level: nat := 0;
    ghost var line: seq<seq<nat>> := [[]];
    StartComplete(index, filter, tokenIn, tokenOut, maxHops);
    StartInLine(index, filter, tokenIn, tokenOut, maxHops);
    while |queue| > 0
      invariant Frontier(index, filter, tokenIn, level, queue)
      invariant Complete(index, filter, tokenIn, tokenOut, maxHops, queue)
      invariant InLine(index, filter, tokenIn, queue, line)
      invariant InReach(index, filter, tokenIn, tokenOut, maxHops, line, None)
      decreases QueueWeight(queue, maxHops, b)
    {
      var current := queue[0];
      PopHead(index, filter, tokenIn, tokenOut, maxHops, level, queue);
      PopLine(index, filter, tokenIn, tokenOut, maxHops, queue, line);
      HeadRides(index, filter, tokenIn, queue, line);
      ghost var now := line[0];
      line := line[1..];
      queue := queue[1..];
      level := |current.route|;
      ghost var weight := QueueWeight(queue, maxHops, b);
      if |current.route| < maxHops {
        ghost var child := Weight(maxHops - level - 1, b);
        var pools := PoolsAt(index, current.token);
        for k := 0 to |pools|
          invariant Frontier(index, filter, tokenIn, level, queue)
          invariant Awaiting(index, filter, tokenIn, tokenOut, maxHops, current, k, queue)
          invariant InLine(index, filter, tokenIn, queue, line) && After(now, k, line)
          invariant InReach(index, filter, tokenIn, tokenOut, maxHops, line, Some((now, k)))
          invariant QueueWeight(queue, maxHops, b) <= weight + k * child
        {
          var leg := Hop(pools[k], current.token);
          if !Allowed(filter, pools[k]) || leg.to in current.visited {
            SkipPool(index, filter, tokenIn, tokenOut, maxHops, current, k, queue);
            SkipInLine(index, filter, tokenIn, tokenOut, maxHops, current, now, k, line);
          } else if leg.to == tokenOut {
            FoundTarget(index, filter, tokenIn, tokenOut, maxHops, current, k, queue);
            FoundFirst(index, filter, tokenIn, tokenOut, maxHops, current, now, k, queue, line);
            return Some(current.route + [leg]);
          } else {
            var node := PathNode(leg.to, current.route + [leg], current.visited + {leg.to});
            assert IsHop(index, filter, current.token, leg);
            ExtendNode(index, filter, tokenIn, current, leg);
            FrontierSnoc(index, filter, tokenIn, level, queue, node);
            PushInLine(index, filter, tokenIn, tokenOut, maxHops, current, now, k, queue, node, line);
            line := line + [now + [k]];
            PushPool(index, filter, tokenIn, tokenOut, maxHops, current, k, queue, node);
            QueueWeightSnoc(queue, node, maxHops, b);
            queue := queue + [node];
          }
          assert (k + 1) * child == k * child + child;
        }
        NoMorePools(index, filter, tokenIn, tokenOut, maxHops, current, queue);
        NodeDone(index, filter, tokenIn, tokenOut, maxHops, current, now, queue, line);
        ChildrenWeighLess(|pools|, b, child);
      }
    }
    NothingLeft(index, filter, tokenIn, tokenOut, maxHops);
    return None;
  }

  // ---- Pool index -------------------------------------------------------------------------

  /** The pools listed under `token`: a pool of the token with itself is listed twice. */
  function PoolsWith(pools: seq<Pool>, token: string): seq<Pool> {
    if pools == [] then []
    else
      var last := pools[|pools| - 1];
      PoolsWith(pools[..|pools| - 1], token)
      + (if last.token0 == token then [last] else []) + (if last.token1 == token then [last] else [])
  }

  /** Lists are joined in order, and a pool is under its two tokens. */
  lemma {:induction false} PoolsWithAppend(a: seq<Pool>, b: seq<Pool>, token: string)
    ensures PoolsWith(a + b, token) == PoolsWith(a, token) + PoolsWith(b, token)
  {
    if b == [] {
      assert a + b == a;
    } else {
      assert (a + b)[..|a + b| - 1] == a + b[..|b| - 1];
      PoolsWithAppend(a, b[..|b| - 1], token);
    }
  }

  lemma PoolsWithOne(pool: Pool, token: string)
    ensures PoolsWith([pool], token) ==
      if pool.token0 == token && pool.token1 == token then [pool, pool]
      else if pool.token0 == token || pool.token1 == token then [pool] else []
  {
    assert [pool][..0] == [];
  }

  lemma EmptyEntry(index: PoolIndex, token: string)
    requires token !in index
    ensures forall t :: PoolsAt(index[token := []], t) == PoolsAt(index, t)
  {
  }

  lemma PushedEntry(index: PoolIndex, token: string, pool: Pool)
    requires token in index
    ensures forall t :: PoolsAt(index[token := index[token] + [pool]], t) == PoolsAt(index, t) + Entry(token, t, pool)
  {
  }

  function Entry(token: string, t: string, pool: Pool): seq<Pool> {
    if token == t then [pool] else []
  }

  lemma PoolsWithNext(pools: seq<Pool>, k: nat)
    requires k < |pools|
    ensures forall t :: PoolsWith(pools[..k + 1], t)
                     == PoolsWith(pools[..k], t) + Entry(pools[k].token0, t, pools[k])
                       + Entry(pools[k].token1, t, pools[k])
  {
    assert pools[..k + 1][..k] == pools[..k];
  }

  method BuildIndex(pools: seq<Pool>) returns (index: PoolIndex)
    ensures forall t :: PoolsAt(index, t) == PoolsWith(pools, t)
  {
    index := map[];
    for k := 0 to |pools|
      invariant forall t :: PoolsAt(index, t) == PoolsWith(pools[..k], t)
    {
      hide PoolsAt, PoolsWith, Entry;
      var token0, token1 := pools[k].token0, pools[k].token1;
      if token0 !in index {
        EmptyEntry(index, token0);
        index := index[token0 := []];
      }
      if token1 !in index {
        EmptyEntry(index, token1);
        index := index[token1 := []];
      }
      assert forall t :: PoolsAt(index, t) == PoolsWith(pools[..k], t);
      PushedEntry(index, token0, pools[k]);
      index := index[token0 := index[token0] + [pools[k]]];
      PushedEntry(index, token1, pools[k]);
      index := index[token1 := index[token1] + [pools[k]]];
      PoolsWithNext(pools, k);
      assert forall t ::
        PoolsAt(index, t) == PoolsWith(pools[..k], t) + Entry(token0, t, pools[k]) + Entry(token1, t, pools[k]);
      assert forall t :: PoolsAt(index, t) == PoolsWith(pools[..k + 1], t);
    }
    assert pools[..|pools|] == pools;
  }

  predicate Touches(pool: Pool, token: string) {
    pool.token0 == token || pool.token1 == token
  }

  lemma {:induction false} PoolsWithMembers(pools: seq<Pool>, token: string, pool: Pool)
    ensures pool in PoolsWith(pools, token) <==> pool in pools && Touches(pool, token)
  {
    if pools != [] {
      PoolsWithMembers(pools[..|pools| - 1], token, pool);
      assert pool in pools <==> pool in pools[..|pools| - 1] || pool == pools[|pools| - 1];
    }
  }

  /** The leg goes through `pool`, from `current` to its other token, and the filter admits the pool. */
  ghost predicate GoesThrough(filter: Filter, pool: Pool, current: string, leg: Route) {
    && leg.from == current && leg.to == (if pool.token0 == current then pool.token1 else pool.token0)
    && leg.poolAddress == pool.address && leg.factory == pool.address && !leg.stable
    && leg.poolType == pool.poolType && leg.tickSpacing == pool.tickSpacing
    && (filter == Basic ==> pool.poolType != "CL") && (filter == Cl ==> pool.poolType == "CL")
  }

  /** A leg through a real pool of the list, from one of its tokens to the other. */
  ghost predicate IsPoolLeg(pools: seq<Pool>, filter: Filter, current: string, leg: Route) {
    exists pool :: pool in pools && Touches(pool, current) && GoesThrough(filter, pool, current, leg)
  }

  lemma HopGoesThrough(filter: Filter, pool: Pool, current: string, leg: Route)
    ensures GoesThrough(filter, pool, current, leg) <==> Allowed(filter, pool) && leg == Hop(pool, current)
  {
  }

  lemma HopsAreRealPools(pools: seq<Pool>, index: PoolIndex, filter: Filter, current: string, leg: Route)
    requires PoolsAt(index, current) == PoolsWith(pools, current)
    ensures IsHop(index, filter, current, leg) <==> IsPoolLeg(pools, filter, current, leg)
  {
    hide Hop, Allowed, Touches, GoesThrough;
    var listed := PoolsWith(pools, current);
    if IsHop(index, filter, current, leg) {
      var k :| 0 <= k < |listed| && Allowed(filter, listed[k]) && leg == Hop(listed[k], current);
      PoolsWithMembers(pools, current, listed[k]);
      HopGoesThrough(filter, listed[k], current, leg);
    }
    if IsPoolLeg(pools, filter, current, leg) {
      var pool :| pool in pools && Touches(pool, current) && GoesThrough(filter, pool, current, leg);
      HopGoesThrough(filter, pool, current, leg);
      PoolsWithMembers(pools, current, pool);
      var k :| 0 <= k < |listed| && listed[k] == pool;
    }
  }

  /** A chain of real pools from `start` to `goal`. */
  ghost predicate IsChain(pools: seq<Pool>, filter: Filter, start: string, goal: string, route: seq<Route>) {
    && route != [] && TokenAt(start, route, |route|) == goal
    && forall i :: 0 <= i < |route| ==> IsPoolLeg(pools, filter, TokenAt(start, route, i), route[i])
  }

  ghost predicate Indexes(index: PoolIndex, pools: seq<Pool>) {
    forall t :: PoolsAt(index, t) == PoolsWith(pools, t)
  }

  lemma ChainIsWalk(pools: seq<Pool>, index: PoolIndex, filter: Filter, start: string, goal: string, route: seq<Route>)
    requires Indexes(index, pools)
    ensures IsChain(pools, filter, start, goal, route) <==> Reaches(index, filter, start, goal, route)
  {
    hide IsHop, IsPoolLeg, PoolsWith, PoolsAt;
    forall i | 0 <= i < |route|
      ensures IsHop(index, filter, TokenAt(start, route, i), route[i])
          <==> IsPoolLeg(pools, filter, TokenAt(start, route, i), route[i]) {
      HopsAreRealPools(pools, index, filter, TokenAt(start, route, i), route[i]);
    }
  }

  // ---- Candidates -------------------------------------------------------------------------

  predicate IsDirect(pool: Pool, tokenIn: string, tokenOut: string) {
    (pool.token0 == tokenIn && pool.token1 == tokenOut) || (pool.token0 == tokenOut && pool.token1 == tokenIn)
  }

  /** One single-leg candidate for each pool of the pair, in list order. */
  function DirectRoutes(pools: seq<Pool>, tokenIn: string, tokenOut: string): seq<seq<Route>> {
    if pools == [] then []
    else
      var last := pools[|pools| - 1];
      DirectRoutes(pools[..|pools| - 1], tokenIn, tokenOut)
      + if IsDirect(last, tokenIn, tokenOut)
        then [[Route(tokenIn, tokenOut, false, last.address, last.poolType, last.tickSpacing, last.address)]]
        else []
  }

  /** Candidates are joined in order, and each pool of the pair gives the one leg through it. */
  lemma {:induction false} DirectRoutesAppend(a: seq<Pool>, b: seq<Pool>, tokenIn: string, tokenOut: string)
    ensures DirectRoutes(a + b, tokenIn, tokenOut)
         == DirectRoutes(a, tokenIn, tokenOut) + DirectRoutes(b, tokenIn, tokenOut)
  {
    if b == [] {
      assert a + b == a;
    } else {
      assert (a + b)[..|a + b| - 1] == a + b[..|b| - 1];
      DirectRoutesAppend(a, b[..|b| - 1], tokenIn, tokenOut);
    }
  }

  lemma DirectRoutesOfOne(pool: Pool, tokenIn: string, tokenOut: string)
    requires tokenIn != tokenOut
    ensures var direct := DirectRoutes([pool], tokenIn, tokenOut);
      if {pool.token0, pool.token1} == {tokenIn, tokenOut}
      then |direct| == 1 && |direct[0]| == 1 && direct[0][0].to == tokenOut
        && GoesThrough(Any, pool, tokenIn, direct[0][0])
      else direct == []
  {
    assert [pool][..0] == [];
    if {pool.token0, pool.token1} == {tokenIn, tokenOut} {
      assert pool.token0 in {tokenIn, tokenOut} && pool.token1 in {tokenIn, tokenOut};
      assert tokenIn in {pool.token0, pool.token1} && tokenOut in {pool.token0, pool.token1};
    }
  }

  /** Looking only at the pools listed under the input token loses no direct pool. */
  lemma {:induction false} DirectRoutesFromIndex(pools: seq<Pool>, tokenIn: string, tokenOut: string)
    requires tokenIn != tokenOut
    ensures DirectRoutes(PoolsWith(pools, tokenIn), tokenIn, tokenOut) == DirectRoutes(pools, tokenIn, tokenOut)
  {
    if pools != [] {
      var rest, last := pools[..|pools| - 1], pools[|pools| - 1];
      DirectRoutesFromIndex(rest, tokenIn, tokenOut);
      var listed := PoolsWith(rest, tokenIn);
      if last.token0 == tokenIn && last.token1 == tokenIn {
        assert PoolsWith(pools, tokenIn) == listed + [last] + [last];
        DirectRoutesSnoc(listed + [last], last, tokenIn, tokenOut);
        DirectRoutesSnoc(listed, last, tokenIn, tokenOut);
      } else if Touches(last, tokenIn) {
        assert PoolsWith(pools, tokenIn) == listed + [last];
        DirectRoutesSnoc(listed, last, tokenIn, tokenOut);
      } else {
        assert PoolsWith(pools, tokenIn) == listed;
      }
    }
  }

  lemma DirectRoutesSnoc(pools: seq<Pool>, last: Pool, tokenIn: string, tokenOut: string)
    ensures DirectRoutes(pools + [last], tokenIn, tokenOut) == DirectRoutes(pools, tokenIn, tokenOut)
      + if IsDirect(last, tokenIn, tokenOut)
        then [[Route(tokenIn, tokenOut, false, last.address, last.poolType, last.tickSpacing, last.address)]]
        else []
  {
    assert (pools + [last])[..|pools|] == pools;
  }

  lemma {:induction false} DirectRoutesAreChains(pools: seq<Pool>, tokenIn: string, tokenOut: string, k: nat)
    requires tokenIn != tokenOut && k < |DirectRoutes(pools, tokenIn, tokenOut)|
    ensures var c := DirectRoutes(pools, tokenIn, tokenOut)[k];
      IsChain(pools, Any, tokenIn, tokenOut, c) && NoRepeats(tokenIn, c)
  {
    var rest, last := pools[..|pools| - 1], pools[|pools| - 1];
    var c := DirectRoutes(pools, tokenIn, tokenOut)[k];
    if k < |DirectRoutes(rest, tokenIn, tokenOut)| {
      DirectRoutesAreChains(rest, tokenIn, tokenOut, k);
      ChainOfMorePools(rest, pools, tokenIn, tokenOut, c);
    } else {
      assert last in pools && Touches(last, tokenIn) && GoesThrough(Any, last, tokenIn, c[0]);
      assert IsPoolLeg(pools, Any, tokenIn, c[0]);
    }
  }

  lemma ChainOfMorePools(some: seq<Pool>, all: seq<Pool>, start: string, goal: string, route: seq<Route>)
    requires IsChain(some, Any, start, goal, route) && forall pool :: pool in some ==> pool in all
    ensures IsChain(all, Any, start, goal, route)
  {
    forall i | 0 <= i < |route| ensures IsPoolLeg(all, Any, TokenAt(start, route, i), route[i]) {
      assert IsPoolLeg(some, Any, TokenAt(start, route, i), route[i]);
    }
  }

  /** The pool addresses along a route, which the source joins with commas. */
  function Key(route: seq<Route>): seq<string> {
    seq(|route|, i requires 0 <= i < |route| => route[i].poolAddress)
  }

  /** The same pools in the same order. */
  ghost predicate SamePools(a: seq<Route>, b: seq<Route>) {
    |a| == |b| && forall i :: 0 <= i < |a| ==> a[i].poolAddress == b[i].poolAddress
  }

  lemma KeysAreSamePools(a: seq<Route>, b: seq<Route>)
    ensures Key(a) == Key(b) <==> SamePools(a, b)
  {
    if Key(a) == Key(b) {
      assert |Key(a)| == |Key(b)|;
      forall i | 0 <= i < |a| ensures a[i].poolAddress == b[i].poolAddress {
        assert Key(a)[i] == Key(b)[i];
      }
    }
  }

  /**
   * `path` is the earliest of the shortest chains within the hop bound, or absent when every
   * chain is too long.
   */
  ghost predicate IsShortest(pools: seq<Pool>, filter: Filter, start: string, goal: string, maxHops: int,
                             path: Option<seq<Route>>) {
    match path
    case None => forall w :: IsChain(pools, filter, start, goal, w) ==> |w| > maxHops
    case Some(p) =>
      && IsChain(pools, filter, start, goal, p) && NoRepeats(start, p) && |p| <= maxHops
      && (forall w :: IsChain(pools, filter, start, goal, w) ==> |p| <= |w|)
      && IsEarliest(pools, filter, start, goal, p)
  }

  /** `route` takes, at each token, the pool at that place among the pools with the token. */
  ghost predicate IsPoolRide(pools: seq<Pool>, filter: Filter, start: string, places: seq<nat>, route: seq<Route>) {
    |places| == |route|
    && forall i :: 0 <= i < |route| ==> PlaceTaken(pools, filter, TokenAt(start, route, i), places[i], route[i])
  }

  ghost predicate PlaceTaken(pools: seq<Pool>, filter: Filter, token: string, place: nat, leg: Route) {
    var listed := PoolsWith(pools, token);
    place < |listed| && GoesThrough(filter, listed[place], token, leg)
  }

  /** Of the chains of its length without repeats, `path` takes the earliest pools of the list. */
  ghost predicate IsEarliest(pools: seq<Pool>, filter: Filter, start: string, goal: string, path: seq<Route>) {
    exists best :: IsPoolRide(pools, filter, start, best, path) && ComesFirst(pools, filter, start, goal, best)
  }

  ghost predicate ComesFirst(pools: seq<Pool>, filter: Filter, start: string, goal: string, best: seq<nat>) {
    forall route, places ::
      IsChain(pools, filter, start, goal, route) && NoRepeats(start, route)
      && IsPoolRide(pools, filter, start, places, route) ==>
      |places| == |best| ==> places == best || LexLess(best, places)
  }

  lemma RidesAgree(pools: seq<Pool>, index: PoolIndex, filter: Filter, start: string, places: seq<nat>,
                   route: seq<Route>)
    requires Indexes(index, pools)
    ensures IsRide(index, filter, start, places, route) <==> IsPoolRide(pools, filter, start, places, route)
  {
    hide TokenAt, Hop, Allowed, GoesThrough, PoolsWith, PoolsAt;
    if |places| == |route| {
      forall i | 0 <= i < |route|
        ensures Takes(index, filter, TokenAt(start, route, i), places[i], route[i])
            <==> PlaceTaken(pools, filter, TokenAt(start, route, i), places[i], route[i]) {
        var token := TokenAt(start, route, i);
        assert PoolsAt(index, token) == PoolsWith(pools, token);
        if places[i] < |PoolsWith(pools, token)| {
          HopGoesThrough(filter, PoolsWith(pools, token)[places[i]], token, route[i]);
        }
      }
    }
  }

  lemma FirstIsEarliest(pools: seq<Pool>, index: PoolIndex, filter: Filter, start: string, goal: string, maxHops: int,
                        path: seq<Route>)
    requires start != goal && Indexes(index, pools)
    requires IsTarget(index, filter, start, goal, maxHops, path) && IsFirst(index, filter, start, goal, maxHops, path)
    ensures IsEarliest(pools, filter, start, goal, path)
  {
    hide IsRide, IsPoolRide, IsChain, Reaches, NoRepeats, LexLess, Indexes;
    var best :| IsRide(index, filter, start, best, path) && BeatsAll(index, filter, start, goal, maxHops, best);
    RidesAgree(pools, index, filter, start, best, path);
    RideLengthOf(index, filter, start, best, path);
    assert ComesFirst(pools, filter, start, goal, best) by {
      forall route, places
        | IsChain(pools, filter, start, goal, route) && NoRepeats(start, route)
          && IsPoolRide(pools, filter, start, places, route)
        ensures |places| == |best| ==> places == best || LexLess(best, places) {
        ChainIsWalk(pools, index, filter, start, goal, route);
        RidesAgree(pools, index, filter, start, places, route);
        RideLengthOf(index, filter, start, places, route);
        if |places| == |best| {
          assert IsTarget(index, filter, start, goal, maxHops, route);
        }
      }
    }
  }

  /** There is only one earliest chain of a length: the search result is determined by the pool list. */
  lemma EarliestIsUnique(pools: seq<Pool>, filter: Filter, start: string, goal: string, a: seq<Route>, b: seq<Route>)
    requires |a| == |b| && IsEarliest(pools, filter, start, goal, a) && IsEarliest(pools, filter, start, goal, b)
    requires IsChain(pools, filter, start, goal, a) && NoRepeats(start, a)
    requires IsChain(pools, filter, start, goal, b) && NoRepeats(start, b)
    ensures a == b
  {
    hide IsPoolRide, IsChain, NoRepeats, LexLess;
    var x :| IsPoolRide(pools, filter, start, x, a) && ComesFirst(pools, filter, start, goal, x);
    var y :| IsPoolRide(pools, filter, start, y, b) && ComesFirst(pools, filter, start, goal, y);
    PoolRideLength(pools, filter, start, x, a);
    PoolRideLength(pools, filter, start, y, b);
    if x != y {
      NotBothWays(x, y);
    }
    SamePlaces(pools, filter, start, x, a, b, |a|);
    assert a[..|a|] == a && b[..|b|] == b;
  }

  lemma PoolRideLength(pools: seq<Pool>, filter: Filter, start: string, places: seq<nat>, route: seq<Route>)
    requires IsPoolRide(pools, filter, start, places, route)
    ensures |places| == |route|
  {
  }

  lemma NotBothWays(x: seq<nat>, y: seq<nat>)
    requires LexLess(x, y)
    ensures !LexLess(y, x)
  {
    var n :| 0 <= n < |x| && n < |y| && x[..n] == y[..n] && x[n] < y[n];
    forall m | 0 <= m < n ensures x[m] == y[m] {
      assert x[..n][m] == y[..n][m];
    }
    forall m | n < m <= |x| && m <= |y| ensures x[..m] != y[..m] {
      assert x[..m][n] != y[..m][n];
    }
  }

  lemma {:induction false} SamePlaces(pools: seq<Pool>, filter: Filter, start: string, places: seq<nat>,
                                      a: seq<Route>, b: seq<Route>, n: nat)
    requires IsPoolRide(pools, filter, start, places, a) && IsPoolRide(pools, filter, start, places, b) && n <= |a|
    ensures |a| == |b| && a[..n] == b[..n]
  {
    hide PlaceTaken, TokenAt;
    if n > 0 {
      SamePlaces(pools, filter, start, places, a, b, n - 1);
      if n == 1 {
        RouteStart(start, a);
        RouteStart(start, b);
      } else {
        TokenAfter(start, a, n - 1);
        TokenAfter(start, b, n - 1);
        assert a[n - 2] == a[..n - 1][n - 2] == b[n - 2];
      }
      OnePlace(pools, filter, TokenAt(start, a, n - 1), places[n - 1], a[n - 1], b[n - 1]);
      assert a[..n] == a[..n - 1] + [a[n - 1]] && b[..n] == b[..n - 1] + [b[n - 1]];
    }
  }

  lemma OnePlace(pools: seq<Pool>, filter: Filter, token: string, place: nat, x: Route, y: Route)
    requires PlaceTaken(pools, filter, token, place, x) && PlaceTaken(pools, filter, token, place, y)
    ensures x == y
  {
  }

  /** The search speaks of routes without repeats; so do all shortest chains. */
  lemma BfsIsShortest(pools: seq<Pool>, index: PoolIndex, filter: Filter, start: string, goal: string, maxHops: int,
                      path: Option<seq<Route>>)
    requires start != goal && Indexes(index, pools)
    requires path.Some? ==> IsTarget(index, filter, start, goal, maxHops, path.value)
    requires path.Some? ==>
      forall route :: IsTarget(index, filter, start, goal, maxHops, route) ==> |path.value| <= |route|
    requires path.Some? ==> IsFirst(index, filter, start, goal, maxHops, path.value)
    requires path.None? ==> forall route :: !IsTarget(index, filter, start, goal, maxHops, route)
    ensures IsShortest(pools, filter, start, goal, maxHops, path)
  {
    hide IsChain, Reaches, NoRepeats, Indexes, IsFirst, IsEarliest;
    forall w | IsChain(pools, filter, start, goal, w)
      ensures if path.None? then |w| > maxHops else |path.value| <= |w| {
      ChainIsWalk(pools, index, filter, start, goal, w);
      var simple := SimpleWalkExists(index, filter, start, goal, w);
      assert |simple| <= maxHops ==> IsTarget(index, filter, start, goal, maxHops, simple);
    }
    if path.Some? {
      ChainIsWalk(pools, index, filter, start, goal, path.value);
      FirstIsEarliest(pools, index, filter, start, goal, maxHops, path.value);
    }
  }

  method ShortestPath(pools: seq<Pool>, index: PoolIndex, tokenIn: string, tokenOut: string, maxHops: int,
                      filter: Filter)
    returns (path: Option<seq<Route>>)
    requires tokenIn != tokenOut && Indexes(index, pools)
    ensures IsShortest(pools, filter, tokenIn, tokenOut, maxHops, path)
  {
    path := BfsFind(tokenIn, tokenOut, index, maxHops, filter);
    BfsIsShortest(pools, index, filter, tokenIn, tokenOut, maxHops, path);
  }

  ghost predicate IsCandidateList(pools: seq<Pool>, start: string, goal: string, candidates: seq<seq<Route>>) {
    forall k :: 0 <= k < |candidates|
      ==> IsChain(pools, Any, start, goal, candidates[k]) && NoRepeats(start, candidates[k])
  }

  /** Some candidate is an allowed chain no longer than any other. */
  ghost predicate Offers(pools: seq<Pool>, filter: Filter, start: string, goal: string, candidates: seq<seq<Route>>) {
    exists k :: 0 <= k < |candidates| && IsChain(pools, filter, start, goal, candidates[k])
      && forall w :: IsChain(pools, filter, start, goal, w) ==> |candidates[k]| <= |w|
  }

  ghost predicate Distinct(candidates: seq<seq<Route>>) {
    forall i, j :: 0 <= i < j < |candidates| ==> candidates[i] != candidates[j]
  }

  /** A shortest basic route, then a shortest CL route, then a shortest mixed one that is new. */
  ghost predicate FromSearches(pools: seq<Pool>, start: string, goal: string, maxHops: int,
                               candidates: seq<seq<Route>>) {
    exists basic, cl, mixed ::
      && IsShortest(pools, Basic, start, goal, maxHops, basic) && IsShortest(pools, Cl, start, goal, maxHops, cl)
      && IsShortest(pools, Any, start, goal, maxHops, mixed) && candidates == Merged(basic, cl, mixed)
  }

  /** What the searches by pool type and over all pools leave in the candidate list. */
  ghost predicate IsSearchResult(pools: seq<Pool>, start: string, goal: string, maxHops: int,
                                 candidates: seq<seq<Route>>) {
    && FromSearches(pools, start, goal, maxHops, candidates)
    && IsCandidateList(pools, start, goal, candidates) && |candidates| <= 3 && Distinct(candidates)
    && (forall k :: 0 <= k < |candidates| ==> |candidates[k]| <= maxHops)
    && (forall f, w ::
          IsChain(pools, f, start, goal, w) && |w| <= maxHops ==> Offers(pools, f, start, goal, candidates))
  }

  method UseSwapPath(tokenIn: Option<string>, tokenOut: Option<string>, pools: Option<seq<Pool>>, maxHops: int)
    returns (result: Option<seq<seq<Route>>>)
    ensures tokenIn.None? || tokenOut.None? || pools.None? || pools.value == [] || tokenIn == tokenOut ==> result.None?
    ensures result.Some?
        ==> result.value != [] && IsCandidateList(pools.value, tokenIn.value, tokenOut.value, result.value)
    ensures tokenIn.Some? && tokenOut.Some? && pools.Some? && pools.value != [] && tokenIn != tokenOut ==>
      var direct := DirectRoutes(pools.value, tokenIn.value, tokenOut.value);
      if direct != [] then result == Some(direct)
      else
        && (result.Some? ==> IsSearchResult(pools.value, tokenIn.value, tokenOut.value, maxHops, result.value))
        && (result.None? ==> forall w :: IsChain(pools.value, Any, tokenIn.value, tokenOut.value, w) ==> |w| > maxHops)
  {
    if tokenIn.None? || tokenOut.None? || pools.None? || |pools.value| == 0 {
      return None;
    }
    if tokenIn == tokenOut {
      return None;
    }
    var start, goal, list := tokenIn.value, tokenOut.value, pools.value;
    var index := BuildIndex(list);
    var candidates := CollectDirect(index, list, start, goal);
    if |candidates| == 0 {
      candidates := Search(list, index, start, goal, maxHops);
    }
    return if |candidates| > 0 then Some(candidates) else None;
  }

  method CollectDirect(index: PoolIndex, ghost pools: seq<Pool>, tokenIn: string, tokenOut: string)
    returns (candidates: seq<seq<Route>>)
    requires tokenIn != tokenOut && Indexes(index, pools)
    ensures candidates == DirectRoutes(pools, tokenIn, tokenOut)
    ensures IsCandidateList(pools, tokenIn, tokenOut, candidates)
  {
    candidates := [];
    var listed := PoolsAt(index, tokenIn);
    for k := 0 to |listed|
      invariant candidates == DirectRoutes(listed[..k], tokenIn, tokenOut)
    {
      var pool := listed[k];
      DirectRoutesSnoc(listed[..k], pool, tokenIn, tokenOut);
      assert listed[..k + 1] == listed[..k] + [pool];
      if (pool.token0 == tokenIn && pool.token1 == tokenOut) || (pool.token0 == tokenOut && pool.token1 == tokenIn) {
        candidates := candidates
          + [[Route(tokenIn, tokenOut, false, pool.address, pool.poolType, pool.tickSpacing, pool.address)]];
      }
    }
    assert listed[..|listed|] == listed;
    DirectRoutesFromIndex(pools, tokenIn, tokenOut);
    forall k | 0 <= k < |candidates|
      ensures IsChain(pools, Any, tokenIn, tokenOut, candidates[k]) && NoRepeats(tokenIn, candidates[k]) {
      DirectRoutesAreChains(pools, tokenIn, tokenOut, k);
    }
  }

  /** The three searches, each adding at most one candidate. */
  method Search(pools: seq<Pool>, index: PoolIndex, tokenIn: string, tokenOut: string, maxHops: int)
    returns (candidates: seq<seq<Route>>)
    requires tokenIn != tokenOut && Indexes(index, pools)
    ensures IsSearchResult(pools, tokenIn, tokenOut, maxHops, candidates)
  {
    hide IsShortest, IsSearchResult, Key, SamePools, Indexes;
    candidates := [];
    var basicPath := ShortestPath(pools, index, tokenIn, tokenOut, maxHops, Basic);
    var clPath := ShortestPath(pools, index, tokenIn, tokenOut, maxHops, Cl);
    if basicPath.Some? {
      candidates := candidates + [basicPath.value];
    }
    if clPath.Some? {
      candidates := candidates + [clPath.value];
    }
    assert candidates == OptSeq(basicPath) + OptSeq(clPath);
    var mixedPath := ShortestPath(pools, index, tokenIn, tokenOut, maxHops, Any);
    if mixedPath.Some? {
      var duplicate := IsDuplicate(candidates, mixedPath.value);
      if !duplicate {
        candidates := candidates + [mixedPath.value];
      }
    }
    assert candidates == Merged(basicPath, clPath, mixedPath);
    SearchResult(pools, tokenIn, tokenOut, maxHops, basicPath, clPath, mixedPath);
  }

  method IsDuplicate(candidates: seq<seq<Route>>, path: seq<Route>) returns (duplicate: bool)
    ensures duplicate <==> exists k :: 0 <= k < |candidates| && SamePools(candidates[k], path)
  {
    hide Key, SamePools;
    var key := Key(path);
    duplicate := exists k | 0 <= k < |candidates| :: Key(candidates[k]) == key;
    forall k | 0 <= k < |candidates| ensures Key(candidates[k]) == key <==> SamePools(candidates[k], path) {
      KeysAreSamePools(candidates[k], path);
    }
  }

  function OptSeq<T>(o: Option<T>): seq<T> {
    if o.Some? then [o.value] else []
  }

  lemma ChainOfFilter(pools: seq<Pool>, filter: Filter, start: string, goal: string, route: seq<Route>)
    requires IsChain(pools, filter, start, goal, route)
    ensures IsChain(pools, Any, start, goal, route)
    ensures filter == Basic ==> route[0].poolType != "CL"
    ensures filter == Cl ==> route[0].poolType == "CL"
  {
    forall i | 0 <= i < |route| ensures IsPoolLeg(pools, Any, TokenAt(start, route, i), route[i]) {
      assert IsPoolLeg(pools, filter, TokenAt(start, route, i), route[i]);
    }
    assert IsPoolLeg(pools, filter, TokenAt(start, route, 0), route[0]);
  }

  /** The candidate list the three searches build. */
  ghost function Merged(basic: Option<seq<Route>>, cl: Option<seq<Route>>, mixed: Option<seq<Route>>): seq<seq<Route>> {
    var typed := OptSeq(basic) + OptSeq(cl);
    var isNew := mixed.Some? && forall k :: 0 <= k < |typed| ==> !SamePools(typed[k], mixed.value);
    typed + if isNew then [mixed.value] else []
  }

  lemma MergedMembers(pools: seq<Pool>, start: string, goal: string, maxHops: int,
                      basic: Option<seq<Route>>, cl: Option<seq<Route>>, mixed: Option<seq<Route>>)
    requires IsShortest(pools, Basic, start, goal, maxHops, basic)
    requires IsShortest(pools, Cl, start, goal, maxHops, cl)
    requires IsShortest(pools, Any, start, goal, maxHops, mixed)
    ensures var m := Merged(basic, cl, mixed);
      && IsCandidateList(pools, start, goal, m) && |m| <= 3
      && forall k :: 0 <= k < |m| ==> |m[k]| <= maxHops
  {
    hide IsChain, NoRepeats, SamePools, IsShortest;
    ShortestIsCandidate(pools, Basic, start, goal, maxHops, basic);
    ShortestIsCandidate(pools, Cl, start, goal, maxHops, cl);
    ShortestIsCandidate(pools, Any, start, goal, maxHops, mixed);
  }

  lemma ShortestIsCandidate(pools: seq<Pool>, filter: Filter, start: string, goal: string, maxHops: int,
                            path: Option<seq<Route>>)
    requires IsShortest(pools, filter, start, goal, maxHops, path)
    ensures path.Some?
        ==> IsChain(pools, Any, start, goal, path.value) && NoRepeats(start, path.value) && |path.value| <= maxHops
  {
    hide IsChain, NoRepeats;
    if path.Some? {
      ChainOfFilter(pools, filter, start, goal, path.value);
    }
  }

  lemma MergedDistinct(pools: seq<Pool>, start: string, goal: string, maxHops: int,
                       basic: Option<seq<Route>>, cl: Option<seq<Route>>, mixed: Option<seq<Route>>)
    requires IsShortest(pools, Basic, start, goal, maxHops, basic)
    requires IsShortest(pools, Cl, start, goal, maxHops, cl)
    ensures Distinct(Merged(basic, cl, mixed))
  {
    hide IsChain, NoRepeats, IsEarliest;
    if basic.Some? { ChainOfFilter(pools, Basic, start, goal, basic.value); }
    if cl.Some? { ChainOfFilter(pools, Cl, start, goal, cl.value); }
  }

  lemma MergedOffersTyped(pools: seq<Pool>, start: string, goal: string, maxHops: int, filter: Filter, w: seq<Route>,
                          basic: Option<seq<Route>>, cl: Option<seq<Route>>, mixed: Option<seq<Route>>)
    requires IsShortest(pools, Basic, start, goal, maxHops, basic)
    requires IsShortest(pools, Cl, start, goal, maxHops, cl)
    requires filter != Any && IsChain(pools, filter, start, goal, w) && |w| <= maxHops
    ensures Offers(pools, filter, start, goal, Merged(basic, cl, mixed))
  {
    hide IsChain, NoRepeats, SamePools, IsEarliest;
    var m := Merged(basic, cl, mixed);
    if filter == Basic {
      assert m[0] == basic.value;
    } else {
      assert m[if basic.Some? then 1 else 0] == cl.value;
    }
  }

  lemma MergedOffersAny(pools: seq<Pool>, start: string, goal: string, maxHops: int, w: seq<Route>,
                        basic: Option<seq<Route>>, cl: Option<seq<Route>>, mixed: Option<seq<Route>>)
    requires IsShortest(pools, Any, start, goal, maxHops, mixed)
    requires IsCandidateList(pools, start, goal, Merged(basic, cl, mixed))
    requires IsChain(pools, Any, start, goal, w) && |w| <= maxHops
    ensures Offers(pools, Any, start, goal, Merged(basic, cl, mixed))
  {
    hide IsChain, NoRepeats, IsEarliest;
    var typed, m := OptSeq(basic) + OptSeq(cl), Merged(basic, cl, mixed);
    if k :| 0 <= k < |typed| && SamePools(typed[k], mixed.value) {
      assert m[k] == typed[k];
    } else {
      assert m[|typed|] == mixed.value;
    }
  }

  lemma SearchResult(pools: seq<Pool>, start: string, goal: string, maxHops: int,
                     basic: Option<seq<Route>>, cl: Option<seq<Route>>, mixed: Option<seq<Route>>)
    requires IsShortest(pools, Basic, start, goal, maxHops, basic)
    requires IsShortest(pools, Cl, start, goal, maxHops, cl)
    requires IsShortest(pools, Any, start, goal, maxHops, mixed)
    ensures IsSearchResult(pools, start, goal, maxHops, Merged(basic, cl, mixed))
  {
    hide IsChain, NoRepeats, SamePools, IsShortest, Offers, Merged;
    var m := Merged(basic, cl, mixed);
    MergedMembers(pools, start, goal, maxHops, basic, cl, mixed);
    MergedDistinct(pools, start, goal, maxHops, basic, cl, mixed);
    forall f, w | IsChain(pools, f, start, goal, w) && |w| <= maxHops ensures Offers(pools, f, start, goal, m) {
      if f == Any {
        MergedOffersAny(pools, start, goal, maxHops, w, basic, cl, mixed);
      } else {
        MergedOffersTyped(pools, start, goal, maxHops, f, w, basic, cl, mixed);
      }
    }
  }
}