/** Every route of a run is a random walk, so what its request has left is what its forwards did not spend. */
module RouteBudget {
  import opened Crypto
  import opened RouteWalk
  import opened RouteNetwork

  /** Action a forwards the request of route r. */
  ghost predicate Forwards(s: Network, a: Action, r: nat) {
    a.Extend? && a.create.Create? && a.create.path in s.owner && s.owner[a.create.path].route == r
  }

  ghost function ForwardOf(a: Action): Forward
    requires a.Extend? && a.create.Create?
  {
    Forward(a.create.target, a.create.source, a.create.ttl, a.candidates, a.pick)
  }

  /** The forwards that the first i actions made for route r. */
  ghost function WalkOf(states: seq<Network>, actions: seq<Action>, i: nat, r: nat): seq<Forward>
    requires i < |states| == |actions| + 1
  {
    if i == 0 then []
    else
      WalkOf(states, actions, i - 1, r)
      + if Forwards(states[i - 1], actions[i - 1], r) then [ForwardOf(actions[i - 1])] else []
  }

  /** Where the request is now, as a forward that has not been made. */
  ghost function Here(route: Route): Forward
    requires Shaped(route)
  {
    Forward(route.nodes[|route.ids|], route.nodes[|route.ids| - 1], route.ttl, [], 0)
  }

  /** The nodes of the route are those that made the forwards, and each chose the next. */
  ghost predicate IsWalk(route: Route, walk: seq<Forward>, fallbacks: Fallbacks) {
    && Shaped(route) && |walk| + 1 == |route.ids|
    && (walk + [Here(route)])[0].ttl == route.budget
    && (forall k :: 0 <= k < |walk| ==> walk[k].node == route.nodes[k + 1] && walk[k].previous == route.nodes[k])
    && Consecutive(walk + [Here(route)], route.finalNode, fallbacks)
  }

  lemma ConsecutiveGrows(walk: seq<Forward>, f: Forward, next: Forward, finalNode: Node, fallbacks: Fallbacks)
    requires Consecutive(walk + [f], finalNode, fallbacks)
    requires next.node == Choice(f, finalNode, fallbacks).node && next.previous == f.node
    requires next.ttl == NextTtl(f.ttl, Cost(f, finalNode, fallbacks))
    ensures Consecutive(walk + [f] + [next], finalNode, fallbacks)
  {
  }

  /** A forward that has been made instead of the one that has not: only what the node knew and drew is new. */
  lemma ConsecutiveEndsAnyhow(walk: seq<Forward>, f: Forward, g: Forward, finalNode: Node, fallbacks: Fallbacks)
    requires Consecutive(walk + [f], finalNode, fallbacks)
    requires f.node == g.node && f.previous == g.previous && f.ttl == g.ttl
    ensures Consecutive(walk + [g], finalNode, fallbacks)
  {
    var one, other := walk + [f], walk + [g];
    forall i, j | 0 <= i && j == i + 1 && j < |other|
      ensures && other[j].node == Choice(other[i], finalNode, fallbacks).node
              && other[j].previous == other[i].node
              && other[j].ttl == NextTtl(other[i].ttl, Cost(other[i], finalNode, fallbacks))
    {
      assert one[i] == other[i];
      assert one[j].node == Choice(one[i], finalNode, fallbacks).node;
    }
  }

  /** What a forward does to its route. */
  lemma ForwardExtends(s: Network, a: Action)
    requires Invariant(s) && Enabled(s, a) && a.Extend?
    ensures Located(s, a.create.path)
    ensures var r, f := s.owner[a.create.path].route, ForwardOf(a);
            var before, after := s.routes[r], Next(s, a).routes[r];
            && before.endpoint.None? && Shaped(after) && after.finalNode == before.finalNode
            && after.budget == before.budget
            && f.node == Here(before).node && f.previous == Here(before).previous && f.ttl == Here(before).ttl
            && after.nodes == before.nodes + [Choice(f, before.finalNode, s.fallback).node]
            && after.ids == before.ids + [a.newPath]
            && after.ttl == NextTtl(f.ttl, Cost(f, before.finalNode, s.fallback))
  {
    assert MessageIsOnRoute(s, a.create);
  }

  lemma LongerWalk(before: Route, after: Route, walk: seq<Forward>, f: Forward, fallbacks: Fallbacks)
    requires IsWalk(before, walk, fallbacks) && Shaped(after)
    requires after.finalNode == before.finalNode && after.budget == before.budget
    requires f.node == Here(before).node && f.previous == Here(before).previous && f.ttl == Here(before).ttl
    requires after.nodes == before.nodes + [Choice(f, before.finalNode, fallbacks).node]
    requires |after.ids| == |before.ids| + 1
    requires after.ttl == NextTtl(f.ttl, Cost(f, before.finalNode, fallbacks))
    ensures IsWalk(after, walk + [f], fallbacks)
  {
    ConsecutiveEndsAnyhow(walk, Here(before), f, before.finalNode, fallbacks);
    ConsecutiveGrows(walk, f, Here(after), before.finalNode, fallbacks);
  }

  /** Other steps leave the walk of a route as it is. */
  lemma OtherStepsStay(s: Network, a: Action, r: nat)
    requires Enabled(s, a) && r < |s.routes| && !Forwards(s, a, r)
    ensures r < |Next(s, a).routes|
    ensures var before, after := s.routes[r], Next(s, a).routes[r];
            after == before.(endpoint := after.endpoint)
  {
  }

  lemma StepKeepsWalk(s: Network, a: Action, r: nat, walk: seq<Forward>)
    requires Invariant(s) && Enabled(s, a) && r < |s.routes| && IsWalk(s.routes[r], walk, s.fallback)
    requires r < |Next(s, a).routes| && Shaped(Next(s, a).routes[r])
    ensures IsWalk(Next(s, a).routes[r], walk + if Forwards(s, a, r) then [ForwardOf(a)] else [], s.fallback)
  {
    if Forwards(s, a, r) {
      ForwardExtends(s, a);
      LongerWalk(s.routes[r], Next(s, a).routes[r], walk, ForwardOf(a), s.fallback);
    } else {
      OtherStepsStay(s, a, r);
      assert walk + [] == walk;
    }
  }

  lemma NewRouteIsWalk(s: Network, a: Action, r: nat)
    requires Enabled(s, a) && |s.routes| <= r < |Next(s, a).routes|
    ensures IsWalk(Next(s, a).routes[r], [], s.fallback)
  {
  }

  lemma {:induction false} NoRouteNoWalk(states: seq<Network>, actions: seq<Action>, i: nat, r: nat)
    requires Runs(states, actions) && i < |states| && r >= |states[i].routes|
    ensures WalkOf(states, actions, i, r) == []
  {
    if i > 0 {
      NotForwardedAt(states, actions, i, r);
      NoRouteNoWalk(states, actions, i - 1, r);
    }
  }

  lemma NotForwardedAt(states: seq<Network>, actions: seq<Action>, i: nat, r: nat)
    requires Runs(states, actions) && 0 < i < |states| && r >= |states[i].routes|
    ensures r >= |states[i - 1].routes| && !Forwards(states[i - 1], actions[i - 1], r)
  {
    assert StepAt(states, actions, i - 1);
    NotForwarded(states[i - 1], actions[i - 1], r);
  }

  lemma RoutesAreKept(s: Network, a: Action)
    requires Enabled(s, a)
    ensures |s.routes| <= |Next(s, a).routes| && Next(s, a).fallback == s.fallback && Next(s, a).work == s.work
  {
  }

  /** One step of a run; a route that the step begins has made no forward. */
  lemma StepOfWalk(s: Network, a: Action, t: Network, r: nat, walk: seq<Forward>)
    requires Steps(s, a, t) && r < |t.routes|
    requires if r < |s.routes| then IsWalk(s.routes[r], walk, s.fallback) else walk == []
    ensures IsWalk(t.routes[r], walk + if Forwards(s, a, r) then [ForwardOf(a)] else [], s.fallback)
  {
    if r < |s.routes| {
      StepKeepsWalk(s, a, r, walk);
    } else {
      NotForwarded(s, a, r);
      NewRouteIsWalk(s, a, r);
    }
  }

  lemma NotForwarded(s: Network, a: Action, r: nat)
    requires Invariant(s) && r >= |s.routes|
    ensures !Forwards(s, a, r)
  {
  }

  ghost predicate AllShaped(s: Network) {
    forall r :: 0 <= r < |s.routes| ==> Shaped(s.routes[r])
  }

  /** A step of a run, with what every step keeps. */
  ghost predicate Steps(s: Network, a: Action, t: Network) {
    && Invariant(s) && Enabled(s, a) && t == Next(s, a)
    && AllShaped(t) && |s.routes| <= |t.routes| && t.fallback == s.fallback && t.work == s.work
  }

  lemma StepIsStep(s: Network, a: Action, t: Network)
    requires Invariant(s) && Enabled(s, a) && t == Next(s, a) && Invariant(t)
    ensures Steps(s, a, t)
  {
    RoutesAreKept(s, a);
    RoutesAreShaped(t);
  }

  lemma RunStep(states: seq<Network>, actions: seq<Action>, i: nat)
    requires IsRun(states, actions) && i < |actions|
    ensures Enabled(states[i], actions[i]) && states[i + 1] == Next(states[i], actions[i])
  {
  }

  lemma StepOfRun(states: seq<Network>, actions: seq<Action>, i: nat)
    requires IsRun(states, actions) && i < |actions|
    ensures Steps(states[i], actions[i], states[i + 1])
  {
    RunKeepsInvariant(states, actions, i);
    RunKeepsInvariant(states, actions, i + 1);
    RunStep(states, actions, i);
    StepIsStep(states[i], actions[i], states[i + 1]);
  }

  /** A run, step by step, from a state without routes. */
  ghost predicate Runs(states: seq<Network>, actions: seq<Action>) {
    && |states| == |actions| + 1
    && states[0].routes == []
    && forall i {:trigger StepAt(states, actions, i)} :: 0 <= i < |actions| ==> StepAt(states, actions, i)
  }

  ghost predicate StepAt(states: seq<Network>, actions: seq<Action>, i: nat)
    requires i < |actions| && |states| == |actions| + 1
  {
    Steps(states[i], actions[i], states[i + 1])
  }

  lemma RunRuns(states: seq<Network>, actions: seq<Action>)
    requires IsRun(states, actions)
    ensures Runs(states, actions)
  {
    forall i | 0 <= i < |actions| ensures StepAt(states, actions, i) {
      StepOfRun(states, actions, i);
    }
  }

  lemma RoutesAreShaped(s: Network)
    requires Invariant(s)
    ensures AllShaped(s)
  {
    forall r | 0 <= r < |s.routes| ensures Shaped(s.routes[r]) {
      assert RouteIsStored(s, s.routes[r]);
    }
  }

  lemma WalkAt(states: seq<Network>, actions: seq<Action>, i: nat, r: nat, walk: seq<Forward>)
    requires Runs(states, actions) && 0 < i < |states| && r < |states[i].routes|
    requires if r < |states[i - 1].routes| then IsWalk(states[i - 1].routes[r], walk, states[i - 1].fallback)
             else walk == []
    ensures IsWalk(states[i].routes[r],
                   walk + if Forwards(states[i - 1], actions[i - 1], r) then [ForwardOf(actions[i - 1])] else [],
                   states[i].fallback)
  {
    assert StepAt(states, actions, i - 1);
    StepOfWalk(states[i - 1], actions[i - 1], states[i], r, walk);
  }

  lemma {:induction false} RunsAreWalks(states: seq<Network>, actions: seq<Action>, i: nat, r: nat)
    requires Runs(states, actions) && i < |states| && r < |states[i].routes|
    ensures IsWalk(states[i].routes[r], WalkOf(states, actions, i, r), states[i].fallback)
  {
    if r < |states[i - 1].routes| {
      RunsAreWalks(states, actions, i - 1, r);
    } else {
      NoRouteNoWalk(states, actions, i - 1, r);
    }
    WalkAt(states, actions, i, r, WalkOf(states, actions, i - 1, r));
  }

  /** In every run every route is the walk of the forwards made for it. */
  lemma RoutesAreWalks(states: seq<Network>, actions: seq<Action>, i: nat, r: nat)
    requires IsRun(states, actions) && i < |states| && r < |states[i].routes|
    ensures IsWalk(states[i].routes[r], WalkOf(states, actions, i, r), states[i].fallback)
  {
    RunRuns(states, actions);
    RunsAreWalks(states, actions, i, r);
  }

  /**
   * What the request of a route has left, in every run: the budget it began with less the halved round trips of its
   * forwards, up to a millisecond of rounding for each; and not more, unless it is the one millisecond always left.
   */
  lemma BudgetIsWhatIsLeft(states: seq<Network>, actions: seq<Action>, i: nat, r: nat)
    requires IsRun(states, actions) && i < |states| && r < |states[i].routes|
    ensures Shaped(states[i].routes[r])
    ensures var route := states[i].routes[r];
            var walk := WalkOf(states, actions, i, r) + [Here(route)];
            var left := route.budget as real - HalfTrips(walk, route.finalNode, states[i].fallback);
            && |walk| == |route.ids|
            && left - (|walk| - 1) as real <= route.ttl as real
            && (route.ttl > 1 || |walk| == 1 ==> route.ttl as real <= left)
  {
    var route := states[i].routes[r];
    RoutesAreWalks(states, actions, i, r);
    BudgetIsNotLost(WalkOf(states, actions, i, r) + [Here(route)], route.finalNode, states[i].fallback);
  }

  // ---------------------------------------------------------------- work

  /** The request of the route as it came to position k. */
  ghost function RequestAt(route: Route, walk: seq<Forward>, k: nat): Message
    requires Shaped(route) && |walk| + 1 == |route.ids| && k < |route.ids|
  {
    Create(route.nodes[k], route.nodes[k + 1], route.finalNode, route.ids[k], (walk + [Here(route)])[k].ttl,
        route.nonce)
  }

  /** How many nodes took the request up: those that forwarded it, and the final node once it has. */
  ghost function TakenUp(route: Route, walk: seq<Forward>): nat {
    |walk| + if route.endpoint.Some? then 1 else 0
  }

  ghost predicate HadWork(route: Route, walk: seq<Forward>, work: Message -> bool) {
    && Shaped(route) && |walk| + 1 == |route.ids|
    && forall k {:trigger RequestAt(route, walk, k)} :: 0 <= k < TakenUp(route, walk) ==>
         work(RequestAt(route, walk, k))
  }

  lemma ForwardHadWork(s: Network, a: Action, walk: seq<Forward>)
    requires Invariant(s) && Enabled(s, a) && a.Extend?
    requires a.create.path in s.owner && s.owner[a.create.path].route < |s.routes|
    requires var r := s.owner[a.create.path].route;
             IsWalk(s.routes[r], walk, s.fallback) && HadWork(s.routes[r], walk, s.work)
    ensures s.owner[a.create.path].route < |Next(s, a).routes|
    ensures HadWork(Next(s, a).routes[s.owner[a.create.path].route], walk + [ForwardOf(a)], s.work)
  {
    ForwardExtends(s, a);
    assert MessageIsOnRoute(s, a.create);
    var r := s.owner[a.create.path].route;
    var before, after, longer := s.routes[r], Next(s, a).routes[r], walk + [ForwardOf(a)];
    forall k | 0 <= k < TakenUp(after, longer) ensures s.work(RequestAt(after, longer, k)) {
      assert RequestAt(after, longer, k) == RequestAt(before, walk, k);
      assert k == |walk| ==> RequestAt(before, walk, k) == a.create;
    }
  }

  lemma HadWorkStays(before: Route, after: Route, walk: seq<Forward>, work: Message -> bool)
    requires HadWork(before, walk, work) && after == before.(endpoint := after.endpoint) && Shaped(after)
    requires before.endpoint.None? && after.endpoint.Some? ==> work(RequestAt(before, walk, |walk|))
    ensures HadWork(after, walk, work)
  {
    forall k | 0 <= k < TakenUp(after, walk) ensures work(RequestAt(after, walk, k)) {
      assert RequestAt(after, walk, k) == RequestAt(before, walk, k);
    }
  }

  lemma OtherStepsHadWork(s: Network, a: Action, r: nat, after: Route, walk: seq<Forward>)
    requires Invariant(s) && Enabled(s, a) && r < |s.routes| && !Forwards(s, a, r)
    requires r < |Next(s, a).routes| && after == Next(s, a).routes[r] && Shaped(after)
    requires |walk| + 1 == |s.routes[r].ids| && HadWork(s.routes[r], walk, s.work)
    ensures HadWork(after, walk, s.work)
  {
    OtherStepsStay(s, a, r);
    if s.routes[r].endpoint.None? && after.endpoint.Some? {
      ArrivalOf(s, a, r);
      assert RequestAt(s.routes[r], walk, |walk|) == a.create;
    }
    HadWorkStays(s.routes[r], after, walk, s.work);
  }

  /** Only the arrival of its request ends a route. */
  lemma ArrivalOf(s: Network, a: Action, r: nat)
    requires Invariant(s) && Enabled(s, a) && r < |s.routes| && r < |Next(s, a).routes|
    requires s.routes[r].endpoint.None? && Next(s, a).routes[r].endpoint.Some?
    ensures a.Arrive? && s.work(a.create) && Shaped(s.routes[r])
    ensures var route, last := s.routes[r], |s.routes[r].ids| - 1;
            a.create == Create(route.nodes[last], route.nodes[last + 1], route.finalNode, route.ids[last], route.ttl,
                route.nonce)
  {
    OnlyArrivalEnds(s, a, r);
    assert MessageIsOnRoute(s, a.create);
  }

  lemma OnlyArrivalEnds(s: Network, a: Action, r: nat)
    requires Enabled(s, a) && r < |s.routes| && r < |Next(s, a).routes|
    requires s.routes[r].endpoint.None? && Next(s, a).routes[r].endpoint.Some?
    ensures a.Arrive? && s.work(a.create) && a.create.path in s.owner && s.owner[a.create.path].route == r
  {
  }

  lemma StepKeepsWork(s: Network, a: Action, t: Network, r: nat, walk: seq<Forward>)
    requires Steps(s, a, t) && r < |t.routes|
    requires if r < |s.routes| then IsWalk(s.routes[r], walk, s.fallback) && HadWork(s.routes[r], walk, s.work)
             else walk == []
    ensures HadWork(t.routes[r], walk + if Forwards(s, a, r) then [ForwardOf(a)] else [], s.work)
  {
    if r >= |s.routes| {
      NotForwarded(s, a, r);
      NewRouteHasNotArrived(s, a, r);
    } else if Forwards(s, a, r) {
      ForwardHadWork(s, a, walk);
    } else {
      OtherStepsHadWork(s, a, r, t.routes[r], walk);
      assert walk + [] == walk;
    }
  }

  lemma NewRouteHasNotArrived(s: Network, a: Action, r: nat)
    requires Enabled(s, a) && |s.routes| <= r < |Next(s, a).routes|
    ensures Shaped(Next(s, a).routes[r]) && |Next(s, a).routes[r].ids| == 1 && Next(s, a).routes[r].endpoint.None?
  {
  }

  lemma WorkAt(states: seq<Network>, actions: seq<Action>, i: nat, r: nat, walk: seq<Forward>)
    requires Runs(states, actions) && 0 < i < |states| && r < |states[i].routes|
    requires if r < |states[i - 1].routes| then
               && IsWalk(states[i - 1].routes[r], walk, states[i - 1].fallback)
               && HadWork(states[i - 1].routes[r], walk, states[i - 1].work)
             else walk == []
    ensures HadWork(states[i].routes[r],
                    walk + if Forwards(states[i - 1], actions[i - 1], r) then [ForwardOf(actions[i - 1])] else [],
                    states[i].work)
  {
    assert StepAt(states, actions, i - 1);
    StepKeepsWork(states[i - 1], actions[i - 1], states[i], r, walk);
  }

  lemma {:induction false} RunsHadWork(states: seq<Network>, actions: seq<Action>, i: nat, r: nat)
    requires Runs(states, actions) && i < |states| && r < |states[i].routes|
    ensures HadWork(states[i].routes[r], WalkOf(states, actions, i, r), states[i].work)
  {
    if r < |states[i - 1].routes| {
      RunsAreWalks(states, actions, i - 1, r);
      RunsHadWork(states, actions, i - 1, r);
    } else {
      NoRouteNoWalk(states, actions, i - 1, r);
    }
    WorkAt(states, actions, i, r, WalkOf(states, actions, i - 1, r));
  }

  /**
   * In every run, at every node that took the request of a route up, whether to forward it or as its final node, the
   * request as it came there passed that node's test of its work.
   */
  lemma EveryRequestHadWork(states: seq<Network>, actions: seq<Action>, i: nat, r: nat)
    requires IsRun(states, actions) && i < |states| && r < |states[i].routes|
    ensures HadWork(states[i].routes[r], WalkOf(states, actions, i, r), states[i].work)
  {
    RunRuns(states, actions);
    RunsHadWork(states, actions, i, r);
  }
}
