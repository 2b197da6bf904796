/**
 * The FAIL wave as a property of states: the hops of a route die from the final node towards the initiator and never
 * otherwise, even when the FAIL is lost on the way. So a route whose far end is alive is alive throughout.
 */
module RouteWave {
  import opened Crypto
  import opened RouteTable
  import opened RouteNetwork
  import opened RoutePaths
  import opened Wrappers

  /** If a hop row is dead, so are all behind it, and the endpoint's row. */
  ghost predicate DiesFromTheEnd(s: Network, route: Route) {
    && RouteIsStored(s, route)
    && forall j {:trigger Alive(s, route, j)} :: 1 <= j < |route.ids| && !Alive(s, route, j) ==> DeadFrom(s, route, j)
  }

  ghost predicate AllDieFromTheEnd(s: Network) {
    forall r {:trigger DiesFromTheEnd(s, s.routes[r])} :: 0 <= r < |s.routes| ==> DiesFromTheEnd(s, s.routes[r])
  }

  // ---------------------------------------------------------------- handlers

  /** The one step that invalidates a hop row: a FAIL that the hop relays. */
  ghost predicate RelaysFail(s: Network, a: Action, n: Node) {
    && a.HandleBackward? && a.message.Backward? && a.message.back == RouteFail && n == a.message.target
    && Newest(Table(s, n), ByGenerated(a.message.path)).Some?
  }

  lemma BackTouchesHops(s: Network, m: Message, accepted: bool, claim: Claim, n: Node, i: nat)
    requires m.Backward? && i < |Table(s, n)| && Table(s, n)[i].detail.Hop?
    requires !RelaysFail(s, HandleBackward(m, accepted, claim), n)
    ensures i < |Table(HandleBack(s, m, accepted, claim), n)|
    ensures Table(HandleBack(s, m, accepted, claim), n)[i] == Table(s, n)[i]
  {
  }

  lemma OnTouchesHops(s: Network, m: Message, accepted: bool, inTime: bool, context: Context, n: Node, i: nat)
    requires m.Onward? && i < |Table(s, n)| && Table(s, n)[i].detail.Hop?
    ensures i < |Table(HandleOn(s, m, accepted, inTime, context), n)|
    ensures Table(HandleOn(s, m, accepted, inTime, context), n)[i] == Table(s, n)[i]
  {
  }

  lemma WaitTouchesHops(s: Network, a: Action, n: Node, i: nat)
    requires Enabled(s, a) && (a.Published? || a.Confirmed?) && i < |Table(s, n)| && Table(s, n)[i].detail.Hop?
    ensures i < |Table(Next(s, a), n)| && Table(Next(s, a), n)[i] == Table(s, n)[i]
  {
  }

  lemma HopIsKept(s: Network, a: Action, n: Node, i: nat)
    requires Enabled(s, a) && Updates(a) && i < |Table(s, n)| && Table(s, n)[i].detail.Hop? && !RelaysFail(s, a, n)
    ensures i < |Table(Next(s, a), n)| && Table(Next(s, a), n)[i] == Table(s, n)[i]
  {
    match a {
      case HandleBackward(m, accepted, claim) => BackTouchesHops(s, m, accepted, claim, n, i);
      case HandleOnward(m, accepted, inTime, context) => OnTouchesHops(s, m, accepted, inTime, context, n, i);
      case Retire(_, _) =>
      case _ => WaitTouchesHops(s, a, n, i);
    }
  }

  /** What the relayed FAIL says about its route. */
  lemma RelayedFailLeavesDead(s: Network, a: Action, i: nat)
    requires Invariant(s) && Enabled(s, a) && a.HandleBackward? && RelaysFail(s, a, a.message.target)
    requires Newest(Table(s, a.message.target), ByGenerated(a.message.path)) == Some(i)
    ensures Located(s, a.message.path)
    ensures var at := s.owner[a.message.path];
            RouteIsStored(Next(s, a), s.routes[at.route]) && DeadFrom(Next(s, a), s.routes[at.route], at.position)
  {
    var m, t := a.message, Next(s, a);
    assert MessageIsOnRoute(s, m);
    RelayedBack(s, m, i);
    StepKeepsInvariant(s, a);
    var d := Table(s, m.target)[i].detail;
    var sent := Backward(RouteFail, m.target, d.fromNode, d.received);
    assert sent in t.messages && MessageIsOnRoute(t, sent);
  }

  /** A relayed FAIL changes the row of the relaying hop and no other. */
  lemma OnlyTheRelayDies(s: Network, a: Action, n: Node, k: nat)
    requires Invariant(s) && Enabled(s, a) && RelaysFail(s, a, n) && k < |Table(s, n)|
    requires k != Newest(Table(s, n), ByGenerated(a.message.path)).value
    ensures k < |Table(Next(s, a), n)| && Table(Next(s, a), n)[k] == Table(s, n)[k]
  {
    assert MessageIsOnRoute(s, a.message);
    FailPicksTheHop(s, a.message, Newest(Table(s, n), ByGenerated(a.message.path)).value);
  }

  lemma DyingHopIsTheRelay(s: Network, a: Action, r: nat, j: nat)
    requires Invariant(s) && Enabled(s, a) && Updates(a) && r < |s.routes| && RouteIsStored(s, s.routes[r])
    requires 1 <= j < |s.routes[r].ids| && Alive(s, s.routes[r], j) && !Alive(Next(s, a), s.routes[r], j)
    ensures RelaysFail(s, a, s.routes[r].nodes[j]) && a.message.path in s.owner
    ensures s.owner[a.message.path] == Place(r, j)
  {
    var route, n := s.routes[r], s.routes[r].nodes[j];
    RowAt(s, r, j);
    if !RelaysFail(s, a, n) {
      HopIsKept(s, a, n, route.rows[j]);
    } else if route.rows[j] != Newest(Table(s, n), ByGenerated(a.message.path)).value {
      OnlyTheRelayDies(s, a, n, route.rows[j]);
    }
  }

  lemma UpdatingKeepsWave(s: Network, a: Action, r: nat)
    requires Invariant(s) && AllDieFromTheEnd(s) && Enabled(s, a) && Updates(a) && r < |s.routes|
    ensures Next(s, a).routes == s.routes && DiesFromTheEnd(Next(s, a), s.routes[r])
  {
    var t, route := Next(s, a), s.routes[r];
    assert DiesFromTheEnd(s, route);
    UpdatingKeepsTables(s, a);
    UpdateKeepsRoute(s, t, route);
    forall j | 1 <= j < |route.ids| && !Alive(t, route, j) ensures DeadFrom(t, route, j) {
      if Alive(s, route, j) {
        DyingHopIsTheRelay(s, a, r, j);
        RelayedFailLeavesDead(s, a, Newest(Table(s, a.message.target), ByGenerated(a.message.path)).value);
      } else {
        DeathIsKept(s, t, route, j);
      }
    }
  }

  // ---------------------------------------------------------------- steps that make rows

  lemma GrowthKeepsWave(s: Network, t: Network, route: Route)
    requires DiesFromTheEnd(s, route) && RouteIsStored(t, route) && forall n :: Table(s, n) <= Table(t, n)
    ensures DiesFromTheEnd(t, route)
  {
    forall j | 1 <= j < |route.ids| && !Alive(t, route, j) ensures DeadFrom(t, route, j) {
      assert StoredAt(t, route, j) && StoredAt(s, route, j);
      assert Table(s, route.nodes[j]) <= Table(t, route.nodes[j]);
      assert !Alive(s, route, j);
      assert Table(s, route.finalNode) <= Table(t, route.finalNode);
      forall k | j <= k < |route.ids| ensures Dead(t, route, k) {
        assert Dead(s, route, k) && StoredAt(t, route, k);
        assert Table(s, route.nodes[k]) <= Table(t, route.nodes[k]);
      }
    }
  }

  /** A route that is still under way has lost no hop. */
  lemma UnderWayIsAlive(s: Network, m: Message, j: nat)
    requires Invariant(s) && AllDieFromTheEnd(s) && m in s.messages && m.Create?
    ensures Located(s, m.path)
    ensures 1 <= j < |s.routes[s.owner[m.path].route].ids| ==> Alive(s, s.routes[s.owner[m.path].route], j)
  {
    assert MessageIsOnRoute(s, m);
    assert DiesFromTheEnd(s, s.routes[s.owner[m.path].route]);
  }

  /** Nor has it right after a forward or after its arrival. */
  lemma ReachingKeepsAlive(s: Network, a: Action, j: nat)
    requires Invariant(s) && AllDieFromTheEnd(s) && Enabled(s, a) && (a.Extend? || a.Arrive?)
    requires Located(s, a.create.path) && s.owner[a.create.path].route < |Next(s, a).routes|
    requires RouteIsStored(Next(s, a), Next(s, a).routes[s.owner[a.create.path].route])
    requires 1 <= j < |Next(s, a).routes[s.owner[a.create.path].route].ids|
    ensures Alive(Next(s, a), Next(s, a).routes[s.owner[a.create.path].route], j)
  {
    var t, r := Next(s, a), s.owner[a.create.path].route;
    var before, after := s.routes[r], t.routes[r];
    assert StoredAt(t, after, j);
    MakingKeepsRows(s, a, after.nodes[j]);
    if j < |before.ids| {
      UnderWayIsAlive(s, a.create, j);
      assert before.nodes[j] == after.nodes[j] && before.rows[j] == after.rows[j];
    } else {
      assert MessageIsOnRoute(s, a.create);
    }
  }

  lemma MakingKeepsWave(s: Network, a: Action, r: nat)
    requires Invariant(s) && AllDieFromTheEnd(s) && Enabled(s, a) && !Updates(a) && r < |Next(s, a).routes|
    ensures DiesFromTheEnd(Next(s, a), Next(s, a).routes[r])
  {
    var t := Next(s, a);
    StepKeepsInvariant(s, a);
    assert RouteIsStored(t, t.routes[r]);
    if a.Extend? || a.Arrive? {
      assert MessageIsOnRoute(s, a.create);
    }
    if (a.Extend? || a.Arrive?) && r == s.owner[a.create.path].route {
      forall j | 1 <= j < |t.routes[r].ids| ensures Alive(t, t.routes[r], j) {
        ReachingKeepsAlive(s, a, j);
      }
    } else if r < |s.routes| {
      OtherRouteIsKept(s, a, r);
      assert DiesFromTheEnd(s, s.routes[r]);
      forall n ensures Table(s, n) <= Table(t, n) {
        MakingKeepsRows(s, a, n);
      }
      GrowthKeepsWave(s, t, s.routes[r]);
    } else {
      NewRouteIsShort(s, a, r);
    }
  }

  lemma OtherRouteIsKept(s: Network, a: Action, r: nat)
    requires Enabled(s, a) && r < |s.routes|
    requires a.Extend? || a.Arrive? ==> Located(s, a.create.path) && s.owner[a.create.path].route != r
    ensures r < |Next(s, a).routes| && Next(s, a).routes[r] == s.routes[r]
  {
  }

  lemma NewRouteIsShort(s: Network, a: Action, r: nat)
    requires Enabled(s, a) && |s.routes| <= r < |Next(s, a).routes|
    ensures |Next(s, a).routes[r].ids| == 1
  {
  }

  // ---------------------------------------------------------------- over whole runs

  lemma StepKeepsWave(s: Network, a: Action)
    requires Invariant(s) && AllDieFromTheEnd(s) && Enabled(s, a)
    ensures AllDieFromTheEnd(Next(s, a))
  {
    forall r | 0 <= r < |Next(s, a).routes| ensures DiesFromTheEnd(Next(s, a), Next(s, a).routes[r]) {
      if Updates(a) {
        assert Next(s, a).routes == s.routes;
        UpdatingKeepsWave(s, a, r);
      } else {
        MakingKeepsWave(s, a, r);
      }
    }
  }

  /** In every reachable state the dead hops of a route are those from some position on, with the endpoint. */
  lemma {:induction false} RunKeepsWave(states: seq<Network>, actions: seq<Action>, i: nat)
    requires IsRun(states, actions) && i < |states|
    ensures AllDieFromTheEnd(states[i])
  {
    if i > 0 {
      RunKeepsWave(states, actions, i - 1);
      RunKeepsInvariant(states, actions, i - 1);
      StepKeepsWave(states[i - 1], actions[i - 1]);
    }
  }

  // ---------------------------------------------------------------- what the far end knows

  /** The last hop decides for all. */
  lemma LastHopDecides(s: Network, route: Route, k: nat)
    requires DiesFromTheEnd(s, route) && 1 <= k < |route.ids| && Alive(s, route, |route.ids| - 1)
    ensures Alive(s, route, k)
  {
    assert DeadFrom(s, route, k) ==> Dead(s, route, |route.ids| - 1);
  }

  /** The row of the final node is there and valid. */
  ghost predicate EndpointIsValid(s: Network, route: Route) {
    && route.endpoint.Some? && route.endpoint.value < |Table(s, route.finalNode)|
    && Table(s, route.finalNode)[route.endpoint.value].valid
  }

  /** A valid endpoint row means that every hop is alive. */
  lemma ValidEndpointMeansAlive(s: Network, route: Route, k: nat)
    requires DiesFromTheEnd(s, route) && 1 <= k < |route.ids| && EndpointIsValid(s, route)
    ensures Alive(s, route, k)
  {
  }

  ghost predicate TranslationsMeetAt(s: Network, route: Route, steps: nat)
    requires Shaped(route)
  {
    var last := |route.ids| - 1;
    Meet(route, Backwards(s, Stop(route.nodes[last], route.ids[last]), steps),
         Forwards(s, Stop(route.nodes[1], route.ids[0]), steps))
  }

  lemma DeadEndDoesNotTranslate(s: Network, r: nat, steps: nat)
    requires Structure(s) && r < |s.routes| && Shaped(s.routes[r]) && |s.routes[r].ids| > 1
    requires !Alive(s, s.routes[r], |s.routes[r].ids| - 1)
    ensures !TranslationsMeetAt(s, s.routes[r], steps)
  {
    var route, last := s.routes[r], |s.routes[r].ids| - 1;
    ReverseAt(s, r, last);
    assert |Backwards(s, Stop(route.nodes[last], route.ids[last]), steps)| == 1;
  }

  /**
   * In every reachable state, for every route that has reached its final node: the two translations invert each other
   * from end to end if and only if the row of the last hop is valid, or there is no hop.
   */
  lemma TranslationsMeetExactlyWhen(states: seq<Network>, actions: seq<Action>, i: nat, r: nat, steps: nat)
    requires IsRun(states, actions) && i < |states| && r < |states[i].routes|
    requires states[i].routes[r].endpoint.Some? && steps >= |states[i].routes[r].ids| - 1
    ensures Shaped(states[i].routes[r])
    ensures var route := states[i].routes[r];
            TranslationsMeetAt(states[i], route, steps) <==>
            |route.ids| == 1 || Alive(states[i], route, |route.ids| - 1)
  {
    var s, route := states[i], states[i].routes[r];
    RunKeepsInvariant(states, actions, i);
    RunKeepsWave(states, actions, i);
    assert DiesFromTheEnd(s, route);
    if |route.ids| == 1 || Alive(s, route, |route.ids| - 1) {
      forall k | 1 <= k < |route.ids| ensures Alive(s, route, k) {
        LastHopDecides(s, route, k);
      }
      TranslationsMeetIn(s, r, steps);
    } else {
      DeadEndDoesNotTranslate(s, r, steps);
    }
  }

  /**
   * What the final node issues reaches the initiator: while the endpoint's row is valid, which the final node looks up
   * before it answers, a backward message ends at the initiator under its initial path id, a forward message from there
   * ends at the final node under the endpoint's path id, and the second passes the stops of the first in the opposite
   * order.
   */
  lemma ValidEndpointTranslates(states: seq<Network>, actions: seq<Action>, i: nat, r: nat, steps: nat)
    requires IsRun(states, actions) && i < |states| && r < |states[i].routes|
    requires EndpointIsValid(states[i], states[i].routes[r]) && steps >= |states[i].routes[r].ids| - 1
    ensures Shaped(states[i].routes[r]) && TranslationsMeetAt(states[i], states[i].routes[r], steps)
  {
    var s, route := states[i], states[i].routes[r];
    RunKeepsWave(states, actions, i);
    assert DiesFromTheEnd(s, route);
    if |route.ids| > 1 {
      ValidEndpointMeansAlive(s, route, |route.ids| - 1);
    }
    TranslationsMeetExactlyWhen(states, actions, i, r, steps);
  }
}
