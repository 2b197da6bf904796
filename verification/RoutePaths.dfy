/**
 * What route construction promises: translations that invert each other, a FAIL wave that kills exactly its route,
 * bounded routes.
 */
module RoutePaths {
  import opened Crypto
  import opened RouteTable
  import opened RouteWalk
  import opened RouteNetwork
  import opened Wrappers

  /** A node together with the path id under which a message is there. */
  datatype Stop = Stop(node: Node, path: PathId)

  /** `_resolve_reverse_path`: where a message for the initiator goes next. */
  function Reverse(s: Network, at: Stop): Option<Stop> {
    var rows := Table(s, at.node);
    match Newest(rows, ByGenerated(at.path))
    case None => None
    case Some(i) => Some(Stop(rows[i].detail.fromNode, rows[i].detail.received))
  }

  /** `_resolve_forward_path`: where a message for the final node goes next. */
  function Ahead(s: Network, at: Stop): Option<Stop> {
    var rows := Table(s, at.node);
    match Newest(rows, ByReceived(at.path))
    case None => None
    case Some(i) => Some(Stop(rows[i].detail.toNode, rows[i].detail.generated))
  }

  /** The stops of a message that is passed on `steps` times at most; `next` is a lookup. */
  function Follow(next: Stop -> Option<Stop>, at: Stop, steps: nat): seq<Stop>
    decreases steps
  {
    if steps == 0 || next(at).None? then [at] else [at] + Follow(next, next(at).value, steps - 1)
  }

  function ReverseIn(s: Network): Stop -> Option<Stop> {
    (at: Stop) => Reverse(s, at)
  }

  function AheadIn(s: Network): Stop -> Option<Stop> {
    (at: Stop) => Ahead(s, at)
  }

  function Backwards(s: Network, at: Stop, steps: nat): seq<Stop> {
    Follow(ReverseIn(s), at, steps)
  }

  function Forwards(s: Network, at: Stop, steps: nat): seq<Stop> {
    Follow(AheadIn(s), at, steps)
  }

  ghost predicate Alive(s: Network, route: Route, j: nat)
    requires Shaped(route) && j < |route.ids|
  {
    StoredAt(s, route, j) && Table(s, route.nodes[j])[route.rows[j]].valid
  }

  // ---------------------------------------------------------------- one hop

  /**
   * At the hop of position j the reverse lookup gives position j - 1, if the row is still valid, and nothing
   * otherwise.
   */
  lemma ReverseAt(s: Network, r: nat, j: nat)
    requires Structure(s) && r < |s.routes| && j < |s.routes[r].ids|
    ensures Shaped(s.routes[r])
    ensures var route := s.routes[r];
            Reverse(s, Stop(route.nodes[j], route.ids[j])) ==
            if j > 0 && Alive(s, route, j) then Some(Stop(route.nodes[j - 1], route.ids[j - 1])) else None
  {
    RowAt(s, r, j);
    var route := s.routes[r];
    var rows, p := Table(s, route.nodes[j]), route.ids[j];
    var found := Newest(rows, ByGenerated(p));
    if found.Some? {
      HopRowIsUnique(s, route.nodes[j], found.value, p);
    } else if j > 0 {
      assert !Hit(rows[route.rows[j]], ByGenerated(p));
    }
  }

  lemma AheadAt(s: Network, r: nat, j: nat)
    requires Structure(s) && r < |s.routes| && j < |s.routes[r].ids|
    ensures Shaped(s.routes[r])
    ensures var route := s.routes[r];
            Ahead(s, Stop(route.nodes[j + 1], route.ids[j])) ==
            if j + 1 < |route.ids| && Alive(s, route, j + 1)
            then Some(Stop(route.nodes[j + 2], route.ids[j + 1])) else None
  {
    RowAt(s, r, j);
    var route := s.routes[r];
    var rows, p := Table(s, route.nodes[j + 1]), route.ids[j];
    var found := Newest(rows, ByReceived(p));
    if found.Some? {
      ReceivedRowIsUnique(s, route.nodes[j + 1], found.value, p);
      RowAt(s, r, j + 1);
    } else if j + 1 < |route.ids| {
      RowAt(s, r, j + 1);
      assert !Hit(rows[route.rows[j + 1]], ByReceived(p));
    }
  }

  /** The two lookups of a node are inverse bijections between the path ids it received and those it generated. */
  lemma LookupsAreInverse(s: Network, n: Node, received: PathId, generated: PathId)
    requires Invariant(s)
    ensures (exists from: Node :: Reverse(s, Stop(n, generated)) == Some(Stop(from, received))) <==>
            (exists to: Node :: Ahead(s, Stop(n, received)) == Some(Stop(to, generated)))
  {
    var back, ahead := Reverse(s, Stop(n, generated)), Ahead(s, Stop(n, received));
    var rows := Table(s, n);
    if back.Some? && back.value.path == received {
      var i := Newest(rows, ByGenerated(generated)).value;
      var k := Newest(rows, ByReceived(received));
      assert Hit(rows[i], ByReceived(received));
      ReceivedRowIsUnique(s, n, i, received);
      ReceivedRowIsUnique(s, n, k.value, received);
      assert ahead == Some(Stop(rows[i].detail.toNode, generated));
    }
    if ahead.Some? && ahead.value.path == generated {
      var i := Newest(rows, ByReceived(received)).value;
      var k := Newest(rows, ByGenerated(generated));
      assert Hit(rows[i], ByGenerated(generated));
      HopRowIsUnique(s, n, i, generated);
      HopRowIsUnique(s, n, k.value, generated);
      assert back == Some(Stop(rows[i].detail.fromNode, received));
    }
  }

  // ---------------------------------------------------------------- whole routes

  /** The stops from position j to the initiator. */
  ghost function StopsBack(route: Route, j: nat): (r: seq<Stop>)
    requires Shaped(route) && j < |route.ids|
    ensures |r| == j + 1
    decreases j
  {
    [Stop(route.nodes[j], route.ids[j])] + if j > 0 then StopsBack(route, j - 1) else []
  }

  /** The stops from the node after position j to the final node. */
  ghost function StopsOn(route: Route, j: nat): (r: seq<Stop>)
    requires Shaped(route) && j < |route.ids|
    ensures |r| == |route.ids| - j
    decreases |route.ids| - j
  {
    [Stop(route.nodes[j + 1], route.ids[j])] + if j + 1 < |route.ids| then StopsOn(route, j + 1) else []
  }

  /** A lookup leads from position j to the position before it, and from the first nowhere. */
  ghost predicate LeadsBack(next: Stop -> Option<Stop>, route: Route, j: nat)
    requires Shaped(route) && j < |route.ids|
  {
    next(Stop(route.nodes[j], route.ids[j])) == if j > 0 then Some(Stop(route.nodes[j - 1], route.ids[j - 1])) else None
  }

  /** A lookup leads from position j to the position after it, and from the last nowhere. */
  ghost predicate LeadsOn(next: Stop -> Option<Stop>, route: Route, j: nat)
    requires Shaped(route) && j < |route.ids|
  {
    next(Stop(route.nodes[j + 1], route.ids[j])) ==
    if j + 1 < |route.ids| then Some(Stop(route.nodes[j + 2], route.ids[j + 1])) else None
  }

  lemma AliveLeads(s: Network, r: nat)
    requires Structure(s) && r < |s.routes| && Shaped(s.routes[r])
    requires forall k :: 1 <= k < |s.routes[r].ids| ==> Alive(s, s.routes[r], k)
    ensures forall j {:trigger LeadsBack(ReverseIn(s), s.routes[r], j)} :: 0 <= j < |s.routes[r].ids| ==>
              LeadsBack(ReverseIn(s), s.routes[r], j)
    ensures forall j {:trigger LeadsOn(AheadIn(s), s.routes[r], j)} :: 0 <= j < |s.routes[r].ids| ==>
              LeadsOn(AheadIn(s), s.routes[r], j)
  {
    forall j | 0 <= j < |s.routes[r].ids| ensures LeadsBack(ReverseIn(s), s.routes[r], j) {
      ReverseAt(s, r, j);
    }
    forall j | 0 <= j < |s.routes[r].ids| ensures LeadsOn(AheadIn(s), s.routes[r], j) {
      AheadAt(s, r, j);
    }
  }

  lemma {:induction false} BackFrom(next: Stop -> Option<Stop>, route: Route, j: nat, steps: nat)
    requires Shaped(route) && j < |route.ids| && j <= steps
    requires forall k {:trigger LeadsBack(next, route, k)} :: 0 <= k < |route.ids| ==> LeadsBack(next, route, k)
    ensures Follow(next, Stop(route.nodes[j], route.ids[j]), steps) == StopsBack(route, j)
    decreases j
  {
    assert LeadsBack(next, route, j);
    if j > 0 {
      BackFrom(next, route, j - 1, steps - 1);
    }
  }

  lemma {:induction false} OnFrom(next: Stop -> Option<Stop>, route: Route, j: nat, steps: nat)
    requires Shaped(route) && j < |route.ids| && |route.ids| - 1 - j <= steps
    requires forall k {:trigger LeadsOn(next, route, k)} :: 0 <= k < |route.ids| ==> LeadsOn(next, route, k)
    ensures Follow(next, Stop(route.nodes[j + 1], route.ids[j]), steps) == StopsOn(route, j)
    decreases steps
  {
    assert LeadsOn(next, route, j);
    if j + 1 < |route.ids| {
      OnFrom(next, route, j + 1, steps - 1);
    }
  }

  /** Both directions, stop by stop: `back` from the final node, `on` from the initiator. */
  ghost predicate Meet(route: Route, back: seq<Stop>, on: seq<Stop>)
    requires Shaped(route)
  {
    var last := |route.ids| - 1;
    && |back| == |on| == |route.ids|
    && back[last] == Stop(route.nodes[0], route.ids[0])
    && on[last] == Stop(route.finalNode, route.ids[last])
    && (forall k :: 0 <= k <= last ==> back[last - k].path == on[k].path)
    && (forall k :: 0 <= k < last ==> back[last - 1 - k].node == on[k].node)
  }

  lemma {:induction false} StopBackAt(route: Route, j: nat, i: nat)
    requires Shaped(route) && i <= j < |route.ids|
    ensures StopsBack(route, j)[i] == Stop(route.nodes[j - i], route.ids[j - i])
    decreases j
  {
    if i > 0 {
      StopBackAt(route, j - 1, i - 1);
    }
  }

  lemma {:induction false} StopOnAt(route: Route, j: nat, i: nat)
    requires Shaped(route) && j + i < |route.ids|
    ensures StopsOn(route, j)[i] == Stop(route.nodes[j + i + 1], route.ids[j + i])
    decreases i
  {
    if i > 0 {
      StopOnAt(route, j + 1, i - 1);
    }
  }

  lemma MeetPointwise(route: Route, back: seq<Stop>, on: seq<Stop>)
    requires Shaped(route) && route.endpoint.Some? && |back| == |on| == |route.ids|
    requires forall i :: 0 <= i < |back| ==> back[i] == Stop(route.nodes[|back| - 1 - i], route.ids[|back| - 1 - i])
    requires forall i :: 0 <= i < |on| ==> on[i] == Stop(route.nodes[i + 1], route.ids[i])
    ensures Meet(route, back, on)
  {
  }

  lemma StopsMeet(route: Route)
    requires Shaped(route) && route.endpoint.Some?
    ensures Meet(route, StopsBack(route, |route.ids| - 1), StopsOn(route, 0))
  {
    var last := |route.ids| - 1;
    var back, on := StopsBack(route, last), StopsOn(route, 0);
    forall i | 0 <= i <= last ensures back[i] == Stop(route.nodes[last - i], route.ids[last - i]) {
      StopBackAt(route, last, i);
    }
    forall i | 0 <= i <= last ensures on[i] == Stop(route.nodes[i + 1], route.ids[i]) {
      StopOnAt(route, 0, i);
    }
    MeetPointwise(route, back, on);
  }

  lemma FollowersMeet(back: Stop -> Option<Stop>, ahead: Stop -> Option<Stop>, route: Route, steps: nat)
    requires Shaped(route) && route.endpoint.Some? && steps >= |route.ids| - 1
    requires forall k {:trigger LeadsBack(back, route, k)} :: 0 <= k < |route.ids| ==> LeadsBack(back, route, k)
    requires forall k {:trigger LeadsOn(ahead, route, k)} :: 0 <= k < |route.ids| ==> LeadsOn(ahead, route, k)
    ensures var last := |route.ids| - 1;
            Meet(route, Follow(back, Stop(route.nodes[last], route.ids[last]), steps),
                 Follow(ahead, Stop(route.nodes[1], route.ids[0]), steps))
  {
    BackFrom(back, route, |route.ids| - 1, steps);
    OnFrom(ahead, route, 0, steps);
    StopsMeet(route);
  }

  /**
   * For a route that ended and whose hop rows are valid: what the final node sends back ends at the initiator under
   * its initial path id, what the initiator sends ends at the final node under the endpoint's path id, and the second
   * passes the stops of the first in the opposite order. No number of lookups leads any further.
   */
  lemma TranslationsMeetIn(s: Network, r: nat, steps: nat)
    requires Structure(s) && r < |s.routes| && Shaped(s.routes[r]) && s.routes[r].endpoint.Some?
    requires forall k :: 1 <= k < |s.routes[r].ids| ==> Alive(s, s.routes[r], k)
    requires steps >= |s.routes[r].ids| - 1
    ensures var route := s.routes[r];
            var last := |route.ids| - 1;
            Meet(route, Backwards(s, Stop(route.nodes[last], route.ids[last]), steps),
                 Forwards(s, Stop(route.nodes[1], route.ids[0]), steps))
  {
    AliveLeads(s, r);
    FollowersMeet(ReverseIn(s), AheadIn(s), s.routes[r], steps);
  }

  /** Every message in flight is where its route says: its path id never takes it off the route. */
  lemma MessagesStayOnRoute(states: seq<Network>, actions: seq<Action>, i: nat, m: Message)
    requires IsRun(states, actions) && i < |states| && m in states[i].messages
    ensures Located(states[i], m.path)
    ensures var route := states[i].routes[states[i].owner[m.path].route];
            var j := states[i].owner[m.path].position;
            && (m.Backward? ==> m.target == route.nodes[j])
            && (m.Onward? || m.Create? ==> m.target == route.nodes[j + 1])
  {
    RunKeepsInvariant(states, actions, i);
    assert MessageIsOnRoute(states[i], m);
  }

  /** A ROUTE_CREATE in flight asks for the final node, with the nonce, that its route began with. */
  lemma RequestIsUnchanged(states: seq<Network>, actions: seq<Action>, i: nat, m: Message)
    requires IsRun(states, actions) && i < |states| && m in states[i].messages && m.Create?
    ensures Located(states[i], m.path)
    ensures var route := states[i].routes[states[i].owner[m.path].route];
            m.finalNode == route.finalNode && m.nonce == route.nonce
  {
    RunKeepsInvariant(states, actions, i);
    assert MessageIsOnRoute(states[i], m);
  }

  lemma StepKeepsRequest(s: Network, a: Action, r: nat)
    requires Enabled(s, a) && r < |s.routes|
    ensures r < |Next(s, a).routes| && Next(s, a).work == s.work
    ensures Next(s, a).routes[r].finalNode == s.routes[r].finalNode && Next(s, a).routes[r].nonce == s.routes[r].nonce
  {
  }

  lemma {:induction false} WorkTestIsFixed(states: seq<Network>, actions: seq<Action>, i: nat)
    requires IsRun(states, actions) && i < |states|
    ensures states[i].work == states[0].work
  {
    if i > 0 {
      WorkTestIsFixed(states, actions, i - 1);
      assert Enabled(states[i - 1], actions[i - 1]) && Next(states[i - 1], actions[i - 1]).work == states[i - 1].work;
    }
  }

  /** A route keeps what it asks for from the moment it is started. */
  lemma {:induction false} RouteKeepsRequest(states: seq<Network>, actions: seq<Action>, i: nat, j: nat, r: nat)
    requires IsRun(states, actions) && i <= j < |states| && r < |states[i].routes|
    ensures r < |states[j].routes|
    ensures states[j].routes[r].finalNode == states[i].routes[r].finalNode
        && states[j].routes[r].nonce == states[i].routes[r].nonce
    decreases j
  {
    if i < j {
      RouteKeepsRequest(states, actions, i, j - 1, r);
      StepKeepsRequest(states[j - 1], actions[j - 1], r);
    }
  }

  // ---------------------------------------------------------------- the FAIL wave

  /** A FAIL that has come back as far as the hop of position j has left everything behind it invalid. */
  lemma FailLeavesDeadRows(states: seq<Network>, actions: seq<Action>, i: nat, m: Message)
    requires IsRun(states, actions) && i < |states|
    requires m in states[i].messages && m.Backward? && m.back == RouteFail
    ensures Located(states[i], m.path)
    ensures var route := states[i].routes[states[i].owner[m.path].route];
            RouteIsStored(states[i], route) && DeadFrom(states[i], route, states[i].owner[m.path].position + 1)
  {
    RunKeepsInvariant(states, actions, i);
    assert MessageIsOnRoute(states[i], m);
  }

  /** When it is handled by the initiator, nothing of the route is valid any more. */
  lemma FailAtInitiatorKillsRoute(s: Network, m: Message, claim: Claim)
    requires Invariant(s) && m in s.messages && m.Backward? && m.back == RouteFail
    requires s.owner[m.path].position == 0
    ensures var t := HandleBack(s, m, true, claim);
            var route := s.routes[s.owner[m.path].route];
            RouteIsStored(t, route) && DeadFrom(t, route, 0)
  {
    assert MessageIsOnRoute(s, m);
    var r := s.owner[m.path].route;
    var route, n, rows := s.routes[r], m.target, Table(s, m.target);
    var t := HandleBack(s, m, true, claim);
    RowAt(s, r, 0);
    ReverseAt(s, r, 0);
    assert Newest(rows, ByGenerated(m.path)).None?;
    forall k | 0 <= k < |rows| && k != route.rows[0] ensures !Hit(rows[k], InitiatorBy(m.path)) {
      if Matches(rows[k], InitiatorBy(m.path)) {
        InitiatorRowIsUnique(s, n, k, m.path);
      }
    }
    InvalidateHits(rows, InitiatorBy(m.path), route.rows[0]);
    OneTableChanged(s, t, n, Invalidate(rows, InitiatorBy(m.path)));
    UpdateKeepsRoute(s, t, route);
    DeathIsKept(s, t, route, 1);
    assert StoredAt(t, route, 0) && Dead(t, route, 0);
    assert forall k :: 0 <= k < |route.ids| ==> k == 0 || Dead(t, route, k);
  }

  ghost predicate OfRoute(s: Network, row: Row, r: nat) {
    Key(row) in s.owner && s.owner[Key(row)].route == r
  }

  predicate Handles(a: Action) {
    a.HandleBackward? || a.HandleOnward? || a.Published? || a.Confirmed?
  }

  /** The steps that update rows in place and make none. */
  predicate Updates(a: Action) {
    Handles(a) || a.Retire?
  }

  /** A row that a message can touch: at its target, found by its path id. */
  predicate Touchable(m: Message, n: Node, row: Row) {
    n == m.target && (Key(row) == m.path || Matches(row, ByReceived(m.path)))
  }

  ghost predicate TouchesOnly(s: Network, t: Network, m: Message, n: Node, i: nat)
    requires i < |Table(s, n)|
  {
    i < |Table(t, n)| && (Table(t, n)[i] != Table(s, n)[i] ==> Touchable(m, n, Table(s, n)[i]))
  }

  lemma BackTouches(s: Network, m: Message, accepted: bool, claim: Claim, n: Node, i: nat)
    requires m.Backward? && i < |Table(s, n)|
    ensures TouchesOnly(s, HandleBack(s, m, accepted, claim), m, n, i)
  {
  }

  lemma OnTouches(s: Network, m: Message, accepted: bool, inTime: bool, context: Context, n: Node, i: nat)
    requires m.Onward? && i < |Table(s, n)|
    ensures TouchesOnly(s, HandleOn(s, m, accepted, inTime, context), m, n, i)
  {
  }

  lemma WaitTouches(s: Network, a: Action, n: Node, i: nat)
    requires Enabled(s, a) && (a.Published? || a.Confirmed?) && i < |Table(s, n)|
    ensures TouchesOnly(s, Next(s, a), a.message, n, i)
  {
  }

  lemma TouchedRowMatches(s: Network, a: Action, n: Node, i: nat)
    requires Enabled(s, a) && Handles(a) && i < |Table(s, n)|
    ensures TouchesOnly(s, Next(s, a), a.message, n, i)
  {
    match a {
      case HandleBackward(m, accepted, claim) => BackTouches(s, m, accepted, claim, n, i);
      case HandleOnward(m, accepted, inTime, context) => OnTouches(s, m, accepted, inTime, context, n, i);
      case _ => WaitTouches(s, a, n, i);
    }
  }

  lemma TouchableIsOfRoute(s: Network, m: Message, n: Node, i: nat)
    requires Invariant(s) && m in s.messages && i < |Table(s, n)| && Touchable(m, n, Table(s, n)[i])
    ensures m.path in s.owner && OfRoute(s, Table(s, n)[i], s.owner[m.path].route)
  {
    assert MessageIsOnRoute(s, m);
    if Key(Table(s, n)[i]) != m.path {
      ReceivedRowIsUnique(s, n, i, m.path);
      RowAt(s, s.owner[m.path].route, s.owner[m.path].position + 1);
    }
  }

  /** A handled message changes rows of its own route only. */
  lemma OnlyItsRouteIsTouched(s: Network, a: Action, n: Node, i: nat)
    requires Invariant(s) && Enabled(s, a) && Handles(a)
    requires i < |Table(s, n)| && i < |Table(Next(s, a), n)| && Table(Next(s, a), n)[i] != Table(s, n)[i]
    ensures a.message.path in s.owner && OfRoute(s, Table(s, n)[i], s.owner[a.message.path].route)
  {
    TouchedRowMatches(s, a, n, i);
    TouchableIsOfRoute(s, a.message, n, i);
  }

  // ---------------------------------------------------------------- over whole runs

  /** Giving up a route changes the initiator's row of that route and no other. */
  lemma RetireTouchesOneRow(s: Network, initiator: Node, path: PathId, n: Node, i: nat)
    requires Invariant(s) && i < |Table(s, n)|
    ensures var t := Next(s, Retire(initiator, path));
            && i < |Table(t, n)|
            && (Table(t, n)[i] != Table(s, n)[i] ==>
                  && Table(t, n)[i] == Invalidated(Table(s, n)[i])
                  && Located(s, path) && s.owner[path].position == 0
                  && n == s.routes[s.owner[path].route].nodes[0] && i == s.routes[s.owner[path].route].rows[0])
  {
    if Matches(Table(s, n)[i], InitiatorBy(path)) {
      InitiatorRowIsUnique(s, n, i, path);
    }
  }

  lemma HandlingKeepsTables(s: Network, a: Action)
    requires Enabled(s, a) && Handles(a)
    ensures SameTables(s, Next(s, a))
  {
    var t, n := Next(s, a), a.message.target;
    if t.tables == s.tables {
      NoTableChanged(s, t);
    } else {
      OneTableChanged(s, t, n, Table(t, n));
    }
  }

  /** And afterwards the initiator has no valid row for it. */
  lemma RetiredIsInvalid(s: Network, initiator: Node, path: PathId)
    requires Invariant(s)
    ensures Newest(Table(Next(s, Retire(initiator, path)), initiator), InitiatorBy(path)).None?
  {
    var rows := Table(s, initiator);
    var t := Next(s, Retire(initiator, path));
    var found := Newest(rows, InitiatorBy(path));
    forall k | 0 <= k < |Table(t, initiator)| ensures !Hit(Table(t, initiator)[k], InitiatorBy(path)) {
      if Matches(rows[k], InitiatorBy(path)) && found.Some? {
        InitiatorRowIsUnique(s, initiator, k, path);
        InitiatorRowIsUnique(s, initiator, found.value, path);
      }
    }
  }

  lemma UpdatingKeepsTables(s: Network, a: Action)
    requires Enabled(s, a) && Updates(a)
    ensures SameTables(s, Next(s, a))
  {
    if Handles(a) {
      HandlingKeepsTables(s, a);
    } else {
      OneTableChanged(s, Next(s, a), a.initiator, Table(Next(s, a), a.initiator));
    }
  }

  lemma MakingKeepsRows(s: Network, a: Action, n: Node)
    requires Enabled(s, a) && !Updates(a)
    ensures Table(s, n) <= Table(Next(s, a), n)
  {
  }

  /** No step moves a row, gives it another identity or makes it valid again. */
  lemma StepKeepsRow(s: Network, a: Action, n: Node, i: nat)
    requires Enabled(s, a) && i < |Table(s, n)|
    ensures i < |Table(Next(s, a), n)|
    ensures Identity(Table(Next(s, a), n)[i]) == Identity(Table(s, n)[i])
    ensures Table(Next(s, a), n)[i].valid ==> Table(s, n)[i].valid
  {
    if Updates(a) {
      UpdatingKeepsTables(s, a);
      assert SameRows(Table(s, n), Table(Next(s, a), n));
    } else {
      MakingKeepsRows(s, a, n);
    }
  }

  lemma {:induction false} InvalidIsAbsorbing(states: seq<Network>, actions: seq<Action>, i: nat, j: nat, n: Node,
                                              k: nat)
    requires IsRun(states, actions) && i <= j < |states| && k < |Table(states[i], n)|
    ensures k < |Table(states[j], n)|
    ensures Identity(Table(states[j], n)[k]) == Identity(Table(states[i], n)[k])
    ensures !Table(states[i], n)[k].valid ==> !Table(states[j], n)[k].valid
    decreases j
  {
    if i < j {
      InvalidIsAbsorbing(states, actions, i, j - 1, n, k);
      StepKeepsRow(states[j - 1], actions[j - 1], n, k);
    }
  }

  /** A route that has reached its final node keeps its nodes, path ids and rows. */
  lemma StepKeepsEndedRoute(s: Network, a: Action, r: nat)
    requires Invariant(s) && Enabled(s, a) && r < |s.routes| && s.routes[r].endpoint.Some?
    ensures r < |Next(s, a).routes| && Next(s, a).routes[r] == s.routes[r]
  {
    if a.Extend? || a.Arrive? {
      assert MessageIsOnRoute(s, a.create);
    }
  }

  lemma RunKeepsEndedRoute(states: seq<Network>, actions: seq<Action>, j: nat, r: nat)
    requires IsRun(states, actions) && 0 < j < |states|
    requires r < |states[j - 1].routes| && states[j - 1].routes[r].endpoint.Some?
    ensures r < |states[j].routes| && states[j].routes[r] == states[j - 1].routes[r]
  {
    RunKeepsInvariant(states, actions, j - 1);
    StepKeepsEndedRoute(states[j - 1], actions[j - 1], r);
  }

  lemma {:induction false} EndedRouteIsFixed(states: seq<Network>, actions: seq<Action>, i: nat, j: nat, r: nat)
    requires IsRun(states, actions) && i <= j < |states| && r < |states[i].routes| && states[i].routes[r].endpoint.Some?
    ensures r < |states[j].routes| && states[j].routes[r] == states[i].routes[r]
    decreases j
  {
    if i < j {
      EndedRouteIsFixed(states, actions, i, j - 1, r);
      RunKeepsEndedRoute(states, actions, j, r);
    }
  }

  lemma DeadForever(states: seq<Network>, actions: seq<Action>, i: nat, j: nat, route: Route)
    requires IsRun(states, actions) && i <= j < |states|
    requires RouteIsStored(states[i], route) && RouteIsStored(states[j], route) && DeadFrom(states[i], route, 0)
    ensures DeadFrom(states[j], route, 0)
  {
    InvalidIsAbsorbing(states, actions, i, j, route.finalNode, route.endpoint.value);
    forall k | 0 <= k < |route.ids| ensures Dead(states[j], route, k) {
      assert Dead(states[i], route, k) && StoredAt(states[j], route, k);
      InvalidIsAbsorbing(states, actions, i, j, route.nodes[k], route.rows[k]);
    }
  }

  /** The state after the initiator has handled the FAIL. */
  lemma FailIsHandled(states: seq<Network>, actions: seq<Action>, i: nat)
    requires IsRun(states, actions) && i < |actions|
    requires actions[i].HandleBackward? && actions[i].message.back == RouteFail
    requires actions[i].message.path in states[i].owner && states[i].owner[actions[i].message.path].position == 0
    ensures var r := states[i].owner[actions[i].message.path].route;
            && r < |states[i].routes| && r < |states[i + 1].routes| && states[i + 1].routes[r] == states[i].routes[r]
            && states[i].routes[r].endpoint.Some?
            && RouteIsStored(states[i + 1], states[i].routes[r]) && DeadFrom(states[i + 1], states[i].routes[r], 0)
  {
    var m := actions[i].message;
    RunKeepsInvariant(states, actions, i);
    assert MessageIsOnRoute(states[i], m);
    RunKeepsEndedRoute(states, actions, i + 1, states[i].owner[m.path].route);
    FailAtInitiatorKillsRoute(states[i], m, actions[i].claim);
  }

  /** Once a FAIL has been handled by the initiator, all rows of its route are invalid in every later state. */
  lemma FailedRouteStaysDead(states: seq<Network>, actions: seq<Action>, i: nat, j: nat)
    requires IsRun(states, actions) && i < j < |states|
    requires actions[i].HandleBackward? && actions[i].message.back == RouteFail
    requires actions[i].message.path in states[i].owner
    requires states[i].owner[actions[i].message.path].position == 0
    ensures var r := states[i].owner[actions[i].message.path].route;
            && r < |states[j].routes|
            && RouteIsStored(states[j], states[j].routes[r])
            && DeadFrom(states[j], states[j].routes[r], 0)
  {
    var r := states[i].owner[actions[i].message.path].route;
    FailIsHandled(states, actions, i);
    EndedRouteIsFixed(states, actions, i + 1, j, r);
    RunKeepsInvariant(states, actions, j);
    RowAt(states[j], r, 0);
    DeadForever(states, actions, i + 1, j, states[j].routes[r]);
  }

  // ---------------------------------------------------------------- the budget

  /** Every node's fallback is at least one millisecond. */
  ghost predicate LongFallbacks(s: Network) {
    forall n: Node :: s.fallback(n) >= 1.0
  }

  /** Hops made and budget left never exceed the budget at the start; the last hop, to the final node, is free. */
  ghost predicate WithinBudget(route: Route) {
    && Shaped(route) && route.ttl >= 1
    && |route.ids| - 1 + (if route.nodes[|route.ids|] == route.finalNode then 0 else route.ttl) <= route.budget
  }

  ghost predicate AllWithinBudget(s: Network) {
    forall r :: 0 <= r < |s.routes| ==> WithinBudget(s.routes[r])
  }

  lemma ExtendKeepsBudget(s: Network, a: Action)
    requires Invariant(s) && Enabled(s, a) && a.Extend? && LongFallbacks(s)
    requires Located(s, a.create.path) && WithinBudget(s.routes[s.owner[a.create.path].route])
    ensures WithinBudget(Next(s, a).routes[s.owner[a.create.path].route])
  {
    var m := a.create;
    assert MessageIsOnRoute(s, m);
    var chosen := SelectNext(a.candidates, m.finalNode, m.source, m.ttl, s.fallback(m.target), a.pick);
    if chosen.node != m.finalNode {
      ForwardSpendsBudget(a.candidates, m.finalNode, m.source, m.ttl, s.fallback(m.target), a.pick);
    }
  }

  lemma OtherRoutesKeepBudget(s: Network, a: Action, r: nat)
    requires Enabled(s, a) && r < |s.routes| && WithinBudget(s.routes[r])
    requires a.Extend? ==> Located(s, a.create.path) && s.owner[a.create.path].route != r
    requires r < |Next(s, a).routes| && Shaped(Next(s, a).routes[r])
    ensures WithinBudget(Next(s, a).routes[r])
  {
  }

  lemma RouteStaysShaped(s: Network, a: Action, r: nat)
    requires Invariant(s) && Enabled(s, a) && r < |Next(s, a).routes|
    ensures Shaped(Next(s, a).routes[r])
  {
    StepKeepsInvariant(s, a);
    assert RouteIsStored(Next(s, a), Next(s, a).routes[r]);
  }

  lemma NewRouteHasBudget(s: Network, a: Action, r: nat)
    requires Enabled(s, a) && |s.routes| <= r < |Next(s, a).routes|
    ensures WithinBudget(Next(s, a).routes[r])
  {
  }

  lemma StepKeepsBudget(s: Network, a: Action, r: nat)
    requires Invariant(s) && Enabled(s, a) && LongFallbacks(s)
    requires AllWithinBudget(s)
    requires r < |Next(s, a).routes|
    ensures WithinBudget(Next(s, a).routes[r])
  {
    if a.Extend? {
      assert MessageIsOnRoute(s, a.create);
      assert Located(s, a.create.path);
    }
    if a.Extend? && s.owner[a.create.path].route == r {
      ExtendKeepsBudget(s, a);
    } else if r < |s.routes| {
      RouteStaysShaped(s, a, r);
      OtherRoutesKeepBudget(s, a, r);
    } else {
      NewRouteHasBudget(s, a, r);
    }
  }

  lemma StepKeepsAllBudgets(s: Network, a: Action)
    requires Invariant(s) && Enabled(s, a) && LongFallbacks(s) && AllWithinBudget(s)
    ensures AllWithinBudget(Next(s, a)) && Next(s, a).fallback == s.fallback
  {
    forall r | 0 <= r < |Next(s, a).routes| ensures WithinBudget(Next(s, a).routes[r]) {
      StepKeepsBudget(s, a, r);
    }
  }

  lemma {:induction false} RunKeepsBudgets(states: seq<Network>, actions: seq<Action>, i: nat)
    requires IsRun(states, actions) && i < |states| && LongFallbacks(states[0])
    ensures states[i].fallback == states[0].fallback && AllWithinBudget(states[i])
  {
    if i > 0 {
      RunKeepsBudgets(states, actions, i - 1);
      RunKeepsInvariant(states, actions, i - 1);
      StepKeepsAllBudgets(states[i - 1], actions[i - 1]);
    }
  }

  /** With fallbacks of at least one, a route started with budget T never has more than T hop rows. */
  lemma RoutesAreBounded(states: seq<Network>, actions: seq<Action>, i: nat, r: nat)
    requires IsRun(states, actions) && i < |states| && LongFallbacks(states[0])
    requires r < |states[i].routes|
    ensures |states[i].routes[r].rows| - 1 <= states[i].routes[r].budget
  {
    RunKeepsBudgets(states, actions, i);
    assert WithinBudget(states[i].routes[r]);
  }
}
