/** Every live route can fail: the handshake is carried to the end of its route and back until a late pong ends it. */
module RouteFailing {
  import opened Crypto
  import opened RouteTable
  import opened RouteWalk
  import opened RouteNetwork
  import opened RoutePaths
  import opened RouteWave
  import opened Wrappers

  /** A route that has reached its final node and all of whose rows are valid. */
  ghost predicate Live(s: Network, r: nat) {
    && r < |s.routes| && RouteIsStored(s, s.routes[r]) && EndpointIsValid(s, s.routes[r])
    && forall j {:trigger Alive(s, s.routes[r], j)} :: 0 <= j < |s.routes[r].ids| ==> Alive(s, s.routes[r], j)
  }

  function BackAt(route: Route, back: BackKind, j: nat): Message
    requires j < |route.ids| && |route.nodes| == |route.ids| + 1
  {
    Backward(back, route.nodes[j + 1], route.nodes[j], route.ids[j])
  }

  function OnAt(route: Route, onward: ForwardKind, j: nat): Message
    requires j < |route.ids| && |route.nodes| == |route.ids| + 1
  {
    Onward(onward, route.nodes[j], route.nodes[j + 1], route.ids[j])
  }

  /** The row of the initiator. */
  function OwnRow(s: Network, route: Route): Row
    requires RouteIsStored(s, route)
  {
    assert StoredAt(s, route, 0);
    Table(s, route.nodes[0])[route.rows[0]]
  }

  /** The row of the final node. */
  function EndRow(s: Network, route: Route): Row
    requires RouteIsStored(s, route) && route.endpoint.Some?
  {
    Table(s, route.finalNode)[route.endpoint.value]
  }

  const NO_CLAIM := Claim(0, 0, Signed(0, KemOffer(0)), Shared(0, 0))

  // ---------------------------------------------------------------- one relay

  lemma RelayBack(s: Network, r: nat, back: BackKind, j: nat) returns (t: Network)
    requires Reachable(s) && Live(s, r) && back != RouteFail && 1 <= j < |s.routes[r].ids|
    requires BackAt(s.routes[r], back, j) in s.messages
    ensures Reachable(t) && t == Sends(s, BackAt(s.routes[r], back, j - 1))
  {
    var a := HandleBackward(BackAt(s.routes[r], back, j), true, NO_CLAIM);
    ReachableIsGood(s);
    ReverseAt(s, r, j);
    assert Alive(s, s.routes[r], j);
    ReachableStep(s, a);
    t := Next(s, a);
  }

  lemma RelayOn(s: Network, r: nat, onward: ForwardKind, j: nat, context: Context) returns (t: Network)
    requires Reachable(s) && Live(s, r) && j + 1 < |s.routes[r].ids| && OnAt(s.routes[r], onward, j) in s.messages
    ensures Reachable(t) && t == Sends(s, OnAt(s.routes[r], onward, j + 1))
  {
    var a := HandleOnward(OnAt(s.routes[r], onward, j), true, true, context);
    ReachableIsGood(s);
    AheadAt(s, r, j);
    assert Alive(s, s.routes[r], j + 1);
    ReachableStep(s, a);
    t := Next(s, a);
  }

  // ---------------------------------------------------------------- whole routes

  /** The same network, with more in flight. */
  ghost predicate Busier(s: Network, t: Network) {
    t == s.(messages := t.messages) && s.messages <= t.messages
  }

  lemma BusierIsLive(s: Network, t: Network, r: nat)
    requires Live(s, r) && Busier(s, t)
    ensures Live(t, r)
  {
    NoTableChanged(s, t);
    UpdateKeepsRoute(s, t, s.routes[r]);
    forall j | 0 <= j < |s.routes[r].ids| ensures Alive(t, s.routes[r], j) {
      assert Alive(s, s.routes[r], j) && StoredAt(t, s.routes[r], j);
    }
  }

  lemma {:induction false} CarryBack(s: Network, r: nat, back: BackKind, j: nat) returns (t: Network)
    requires Reachable(s) && Live(s, r) && back != RouteFail && j < |s.routes[r].ids|
    requires BackAt(s.routes[r], back, j) in s.messages
    ensures Reachable(t) && Live(t, r) && Busier(s, t) && BackAt(s.routes[r], back, 0) in t.messages
    decreases j
  {
    t := s;
    if j > 0 {
      var u := RelayBack(s, r, back, j);
      BusierIsLive(s, u, r);
      t := CarryBack(u, r, back, j - 1);
    }
  }

  lemma {:induction false} CarryOn(s: Network, r: nat, onward: ForwardKind, j: nat, context: Context)
    returns (t: Network)
    requires Reachable(s) && Live(s, r) && j < |s.routes[r].ids| && OnAt(s.routes[r], onward, j) in s.messages
    ensures Reachable(t) && Live(t, r) && Busier(s, t)
    ensures OnAt(s.routes[r], onward, |s.routes[r].ids| - 1) in t.messages
    decreases |s.routes[r].ids| - j
  {
    t := s;
    if j + 1 < |s.routes[r].ids| {
      var u := RelayOn(s, r, onward, j, context);
      BusierIsLive(s, u, r);
      t := CarryOn(u, r, onward, j + 1, context);
    }
  }

  // ---------------------------------------------------------------- the two ends

  /** Rows may have been updated, none has become invalid. */
  ghost predicate StillValid(s: Network, t: Network, n: Node) {
    && SameRows(Table(s, n), Table(t, n))
    && forall i :: 0 <= i < |Table(s, n)| ==> Table(t, n)[i].valid == Table(s, n)[i].valid
  }

  lemma StillLive(s: Network, t: Network, r: nat)
    requires Live(s, r) && t.routes == s.routes && t.owner == s.owner && forall n :: StillValid(s, t, n)
    ensures Live(t, r)
  {
    var route := s.routes[r];
    forall n ensures SameRows(Table(s, n), Table(t, n)) {
      assert StillValid(s, t, n);
    }
    UpdateKeepsRoute(s, t, route);
    forall j | 0 <= j < |route.ids| ensures Alive(t, route, j) {
      assert Alive(s, route, j) && StoredAt(t, route, j) && StillValid(s, t, route.nodes[j]);
    }
    assert StillValid(s, t, route.finalNode);
  }

  /** What a message that has come to the initiator finds there. */
  lemma InitiatorIsFound(s: Network, r: nat)
    requires Invariant(s) && Live(s, r)
    ensures var route := s.routes[r];
            var rows, path := Table(s, route.nodes[0]), route.ids[0];
            && Newest(rows, ByGenerated(path)).None? && Newest(rows, InitiatorBy(path)) == Some(route.rows[0])
            && route.rows[0] < |rows| && rows[route.rows[0]].detail.firstHop == route.nodes[1]
  {
    var route := s.routes[r];
    var rows := Table(s, route.nodes[0]);
    ReverseAt(s, r, 0);
    assert Alive(s, route, 0) && Hit(rows[route.rows[0]], InitiatorBy(route.ids[0]));
    InitiatorRowIsUnique(s, route.nodes[0], Newest(rows, InitiatorBy(route.ids[0])).value, route.ids[0]);
    RowAt(s, r, 0);
  }

  /** The initiator commits itself and answers the key offer with its validation request. */
  lemma InitiatorCommits(s: Network, r: nat, claim: Claim) returns (t: Network)
    requires Reachable(s) && Live(s, r) && BackAt(s.routes[r], KemInfo, 0) in s.messages
    ensures Reachable(t) && Live(t, r) && t.routes == s.routes && OnAt(s.routes[r], Validate, 0) in t.messages
    ensures OwnRow(s, s.routes[r]).detail.Initiator?
    ensures OwnRow(t, s.routes[r]) == Row(true, PendingFinalValidation, Claimed(OwnRow(s, s.routes[r]).detail, claim))
    ensures EndRow(t, s.routes[r]) == EndRow(s, s.routes[r])
  {
    var a := HandleBackward(BackAt(s.routes[r], KemInfo, 0), true, claim);
    ReachableIsGood(s);
    InitiatorIsFound(s, r);
    ReachableStep(s, a);
    t := Next(s, a);
    forall n ensures StillValid(s, t, n) {
    }
    StillLive(s, t, r);
  }

  /** The initiator answers a ping with a pong. */
  lemma InitiatorPongs(s: Network, r: nat) returns (t: Network)
    requires Reachable(s) && Live(s, r) && BackAt(s.routes[r], Ping, 0) in s.messages
    ensures Reachable(t) && Live(t, r) && Busier(s, t) && OnAt(s.routes[r], Pong, 0) in t.messages
  {
    var a := HandleBackward(BackAt(s.routes[r], Ping, 0), true, NO_CLAIM);
    ReachableIsGood(s);
    InitiatorIsFound(s, r);
    ReachableStep(s, a);
    t := Next(s, a);
    BusierIsLive(s, t, r);
  }

  /** What a message that has come to the far end finds there. */
  lemma EndpointIsFound(s: Network, r: nat)
    requires Invariant(s) && Live(s, r)
    ensures var route := s.routes[r];
            var rows, path := Table(s, route.finalNode), route.ids[|route.ids| - 1];
            && route.nodes[|route.ids|] == route.finalNode
            && Newest(rows, ByReceived(path)).None? && Newest(rows, EndpointBy(path)) == route.endpoint
            && rows[route.endpoint.value].detail.previous == route.nodes[|route.ids| - 1]
            && EndRow(s, route).detail.Endpoint? && OwnRow(s, route).detail.Initiator?
  {
    var route := s.routes[r];
    RowAt(s, r, 0);
    var rows, path := Table(s, route.finalNode), route.ids[|route.ids| - 1];
    AheadAt(s, r, |route.ids| - 1);
    assert Hit(rows[route.endpoint.value], EndpointBy(path));
    EndpointRowIsUnique(s, route.finalNode, Newest(rows, EndpointBy(path)).value, path);
    RowAt(s, r, |route.ids| - 1);
  }

  ghost predicate RowIsKept(s: Network, t: Network, n: Node, i: nat) {
    i < |Table(s, n)| ==> i < |Table(t, n)| && Table(t, n)[i] == Table(s, n)[i]
  }

  /** No row of any node has changed but one. */
  ghost predicate OnlyRow(s: Network, t: Network, n: Node, i: nat) {
    forall x: Node, k: nat {:trigger RowIsKept(s, t, x, k)} :: x != n || k != i ==> RowIsKept(s, t, x, k)
  }

  lemma OneRowChanged(s: Network, t: Network, n: Node, i: nat, row: Row)
    requires i < |Table(s, n)| && t.tables == s.tables[n := Table(s, n)[i := row]]
    ensures OnlyRow(s, t, n, i)
  {
  }

  /** A node may be both ends of a route; their rows differ all the same. */
  lemma EndsDiffer(s: Network, route: Route)
    requires RouteIsStored(s, route) && route.endpoint.Some?
    ensures route.nodes[0] != route.finalNode || route.rows[0] != route.endpoint.value
  {
    assert StoredAt(s, route, 0);
  }

  /** The final node answers a validation request with a ping. */
  lemma EndpointPings(s: Network, r: nat, context: Context) returns (t: Network)
    requires Reachable(s) && Live(s, r) && OnAt(s.routes[r], Validate, |s.routes[r].ids| - 1) in s.messages
    ensures Reachable(t) && Live(t, r) && t.routes == s.routes
    ensures BackAt(s.routes[r], Ping, |s.routes[r].ids| - 1) in t.messages
    ensures OwnRow(t, s.routes[r]) == OwnRow(s, s.routes[r]) && EndRow(s, s.routes[r]).detail.Endpoint?
    ensures EndRow(t, s.routes[r]) ==
            Row(true, PendingPingValidation, EndRow(s, s.routes[r]).detail.(context := Some(context)))
  {
    var a := HandleOnward(OnAt(s.routes[r], Validate, |s.routes[r].ids| - 1), true, true, context);
    ReachableIsGood(s);
    EndpointIsFound(s, r);
    ReachableStep(s, a);
    t := Next(s, a);
    forall n ensures StillValid(s, t, n) {
    }
    StillLive(s, t, r);
    var route := s.routes[r];
    OneRowChanged(s, t, route.finalNode, route.endpoint.value, EndRow(t, route));
    EndsDiffer(s, route);
    assert StoredAt(s, route, 0) && RowIsKept(s, t, route.nodes[0], route.rows[0]);
  }

  /** A FAIL has come back to position j: everything behind it is dead, everything from there on still alive. */
  ghost predicate Failing(s: Network, r: nat, j: nat) {
    && r < |s.routes| && Shaped(s.routes[r]) && j < |s.routes[r].ids|
    && BackAt(s.routes[r], RouteFail, j) in s.messages
    && forall k {:trigger Alive(s, s.routes[r], k)} :: 0 <= k <= j ==> Alive(s, s.routes[r], k)
  }

  /** A late pong: the final node gives up the route and says so to the last hop. */
  lemma EndpointFails(s: Network, r: nat, context: Context) returns (t: Network)
    requires Reachable(s) && Live(s, r) && OnAt(s.routes[r], Pong, |s.routes[r].ids| - 1) in s.messages
    ensures Reachable(t) && t.routes == s.routes && Failing(t, r, |s.routes[r].ids| - 1)
  {
    var route, last := s.routes[r], |s.routes[r].ids| - 1;
    var a := HandleOnward(OnAt(route, Pong, last), true, false, context);
    ReachableIsGood(s);
    EndpointIsFound(s, r);
    ReachableStep(s, a);
    t := Next(s, a);
    forall k | 0 <= k <= last ensures Alive(t, route, k) {
      assert Alive(s, route, k);
    }
  }

  lemma OtherRowsDiffer(s: Network, r: nat, j: nat, k: nat)
    requires Structure(s) && r < |s.routes| && k < j < |s.routes[r].ids| && RouteIsStored(s, s.routes[r])
    ensures s.routes[r].nodes[k] != s.routes[r].nodes[j] || s.routes[r].rows[k] != s.routes[r].rows[j]
  {
    RowAt(s, r, j);
    RowAt(s, r, k);
  }

  /** The hop of position j relays the FAIL and its row dies. */
  lemma HopDies(s: Network, r: nat, j: nat) returns (t: Network)
    requires Reachable(s) && Failing(s, r, j) && j >= 1
    ensures Reachable(t) && t.routes == s.routes && Failing(t, r, j - 1) && !Alive(t, s.routes[r], j)
  {
    var route, m := s.routes[r], BackAt(s.routes[r], RouteFail, j);
    ReachableIsGood(s);
    assert MessageIsOnRoute(s, m) && Alive(s, route, j);
    ReverseAt(s, r, j);
    var i := Newest(Table(s, m.target), ByGenerated(m.path)).value;
    HopRowIsUnique(s, m.target, i, m.path);
    RowAt(s, r, j);
    FailPicksTheHop(s, m, i);
    ReachableStep(s, HandleBackward(m, true, NO_CLAIM));
    t := Next(s, HandleBackward(m, true, NO_CLAIM));
    forall k | 0 <= k < j ensures Alive(t, route, k) {
      assert Alive(s, route, k);
      OtherRowsDiffer(s, r, j, k);
    }
  }

  /** The FAIL goes all the way and the initiator gives up its row: nothing of the route is left. */
  lemma {:induction false} FailGoesHome(s: Network, r: nat, j: nat) returns (t: Network)
    requires Reachable(s) && Failing(s, r, j)
    ensures Reachable(t) && t.routes == s.routes && RouteIsStored(t, t.routes[r]) && DeadFrom(t, t.routes[r], 0)
    decreases j
  {
    if j > 0 {
      var u := HopDies(s, r, j);
      t := FailGoesHome(u, r, j - 1);
    } else {
      var m := BackAt(s.routes[r], RouteFail, 0);
      ReachableIsGood(s);
      assert MessageIsOnRoute(s, m);
      RowAt(s, r, 0);
      FailAtInitiatorKillsRoute(s, m, NO_CLAIM);
      StepKeepsEndedRoute(s, HandleBackward(m, true, NO_CLAIM), r);
      ReachableStep(s, HandleBackward(m, true, NO_CLAIM));
      t := Next(s, HandleBackward(m, true, NO_CLAIM));
    }
  }

  // ---------------------------------------------------------------- the whole story

  /** From the key offer, wherever it is, to the pong at the final node. */
  lemma HandshakeGoesOn(s: Network, r: nat, j: nat, claim: Claim, context: Context) returns (t: Network)
    requires Reachable(s) && Live(s, r) && j < |s.routes[r].ids| && BackAt(s.routes[r], KemInfo, j) in s.messages
    ensures Reachable(t) && Live(t, r) && t.routes == s.routes
    ensures OnAt(s.routes[r], Pong, |s.routes[r].ids| - 1) in t.messages
    ensures OwnRow(s, s.routes[r]).detail.Initiator? && EndRow(s, s.routes[r]).detail.Endpoint?
    ensures OwnRow(t, s.routes[r]) == Row(true, PendingFinalValidation, Claimed(OwnRow(s, s.routes[r]).detail, claim))
    ensures EndRow(t, s.routes[r]) ==
            Row(true, PendingPingValidation, EndRow(s, s.routes[r]).detail.(context := Some(context)))
  {
    var s1 := CarryBack(s, r, KemInfo, j);
    var s2 := InitiatorCommits(s1, r, claim);
    var s3 := CarryOn(s2, r, Validate, 0, context);
    var s4 := EndpointPings(s3, r, context);
    var s5 := CarryBack(s4, r, Ping, |s.routes[r].ids| - 1);
    var s6 := InitiatorPongs(s5, r);
    t := CarryOn(s6, r, Pong, 0, context);
  }

  /**
   * From every reachable state in which a live route with a hop has its key offer under way: the handshake goes back
   * and forth until a late pong makes the final node give up, and the FAIL has killed the row of the last hop. Then the
   * two translations of the route do not meet, however many lookups are made.
   */
  lemma LiveRouteCanFail(s: Network, r: nat, j: nat, context: Context) returns (t: Network)
    requires Reachable(s) && Live(s, r) && 1 < |s.routes[r].ids| && j < |s.routes[r].ids|
    requires BackAt(s.routes[r], KemInfo, j) in s.messages
    ensures Reachable(t) && t.routes == s.routes && !Alive(t, s.routes[r], |s.routes[r].ids| - 1)
    ensures forall steps {:trigger TranslationsMeetAt(t, s.routes[r], steps)} ::
              !TranslationsMeetAt(t, s.routes[r], steps)
  {
    var s7 := HandshakeGoesOn(s, r, j, NO_CLAIM, context);
    var s8 := EndpointFails(s7, r, context);
    t := HopDies(s8, r, |s.routes[r].ids| - 1);
    ReachableIsGood(t);
    forall steps: nat ensures !TranslationsMeetAt(t, s.routes[r], steps) {
      DeadEndDoesNotTranslate(t, r, steps);
    }
  }

  /** And it can go on until no row of the route is valid, whatever its length. */
  lemma LiveRouteCanDie(s: Network, r: nat, j: nat, context: Context) returns (t: Network)
    requires Reachable(s) && Live(s, r) && j < |s.routes[r].ids| && BackAt(s.routes[r], KemInfo, j) in s.messages
    ensures Reachable(t) && t.routes == s.routes && RouteIsStored(t, t.routes[r]) && DeadFrom(t, t.routes[r], 0)
  {
    var s7 := HandshakeGoesOn(s, r, j, NO_CLAIM, context);
    var s8 := EndpointFails(s7, r, context);
    t := FailGoesHome(s8, r, |s.routes[r].ids| - 1);
  }

  // ---------------------------------------------------------------- a route to begin with

  /** A request whose budget is one goes to its final node as soon as a node knows that node. */
  lemma KnownFinalIsChosen(finalNode: Node, previous: Node, fallback: real)
    ensures var chosen := SelectNext([Candidate(finalNode, 0.0)], finalNode, previous, 1, fallback, 0);
            chosen.node == finalNode && NextTtl(1, OneWay(chosen.averageRtt)) == 1
  {
    assert Eligibles([Candidate(finalNode, 0.0)][1..], finalNode, previous, 1) == [];
  }

  /** A route over one hop, right after its arrival. */
  ghost predicate Ready(s: Network, r: nat, initiator: Node, hop: Node, finalNode: Node) {
    && r < |s.routes| && s.routes[r].nodes == [initiator, hop, finalNode] && |s.routes[r].ids| == 2
    && Live(s, r) && BackAt(s.routes[r], KemInfo, 1) in s.messages
  }

  /** Route r has been asked for over the given nodes, and its request is on its way to the last of them. */
  ghost predicate Asking(s: Network, r: nat, nodes: seq<Node>, finalNode: Node) {
    && Reachable(s) && r < |s.routes| && RouteIsStored(s, s.routes[r]) && s.routes[r].endpoint.None?
    && var route, last := s.routes[r], |s.routes[r].ids| - 1;
    && route.nodes == nodes && route.finalNode == finalNode
    && Create(nodes[last], nodes[last + 1], finalNode, route.ids[last], 1, 0) in s.messages
    && forall j {:trigger Alive(s, route, j)} :: 0 <= j <= last ==> Alive(s, route, j)
  }

  lemma AskingBegins(s: Network, initiator: Node, hop: Node, finalNode: Node, p: PathId) returns (t: Network)
    requires Reachable(s) && p !in s.owner
    ensures |t.routes| == |s.routes| + 1 && Asking(t, |s.routes|, [initiator, hop], finalNode)
    ensures t.work == s.work && t.owner.Keys == s.owner.Keys + {p} && t.routes[|s.routes|].ids == [p]
  {
    var a := Start(initiator, hop, finalNode, p, 0, None, None, 1, true);
    ReachableStep(s, a);
    t := Next(s, a);
    ReachableIsGood(t);
    RowAt(t, |s.routes|, 0);
  }

  lemma AskingGoesOn(s: Network, r: nat, initiator: Node, hop: Node, finalNode: Node, q: PathId) returns (t: Network)
    requires Asking(s, r, [initiator, hop], finalNode) && hop != finalNode && q !in s.owner
    requires s.work(Create(initiator, hop, finalNode, s.routes[r].ids[0], 1, 0))
    ensures |t.routes| == |s.routes| && Asking(t, r, [initiator, hop, finalNode], finalNode)
    ensures t.work == s.work && t.routes[r].ids == s.routes[r].ids + [q]
  {
    var request := Create(initiator, hop, finalNode, s.routes[r].ids[0], 1, 0);
    var a := Extend(request, [Candidate(finalNode, 0.0)], 0, q);
    KnownFinalIsChosen(finalNode, initiator, s.fallback(hop));
    ReachableIsGood(s);
    RowAt(s, r, 0);
    ReachableStep(s, a);
    t := Next(s, a);
    ReachableIsGood(t);
    RowAt(t, r, 0);
    RowAt(t, r, 1);
    assert Alive(s, s.routes[r], 0);
    MakingKeepsRows(s, a, initiator);
  }

  lemma AskingEnds(s: Network, r: nat, initiator: Node, hop: Node, finalNode: Node) returns (t: Network)
    requires Asking(s, r, [initiator, hop, finalNode], finalNode)
    requires s.work(Create(hop, finalNode, finalNode, s.routes[r].ids[1], 1, 0))
    ensures |t.routes| == |s.routes| && Reachable(t) && Ready(t, r, initiator, hop, finalNode)
  {
    var route, a := s.routes[r], Arrive(Create(hop, finalNode, finalNode, s.routes[r].ids[1], 1, 0), 0);
    ReachableIsGood(s);
    RowAt(s, r, 1);
    ReachableStep(s, a);
    t := Next(s, a);
    ReachableIsGood(t);
    RowAt(t, r, 0);
    forall j | 0 <= j < 2 ensures Alive(t, t.routes[r], j) {
      assert Alive(s, route, j);
      RowAt(t, r, j);
      MakingKeepsRows(s, a, route.nodes[j]);
    }
  }

  lemma RouteArises(s: Network, initiator: Node, hop: Node, finalNode: Node, p: PathId, q: PathId) returns (t: Network)
    requires Reachable(s) && hop != finalNode && p != q && p !in s.owner && q !in s.owner
    requires s.work(Create(initiator, hop, finalNode, p, 1, 0)) && s.work(Create(hop, finalNode, finalNode, q, 1, 0))
    ensures |t.routes| == |s.routes| + 1 && Reachable(t) && Ready(t, |s.routes|, initiator, hop, finalNode)
  {
    t := AskingBegins(s, initiator, hop, finalNode, p);
    t := AskingGoesOn(t, |s.routes|, initiator, hop, finalNode, q);
    t := AskingEnds(t, |s.routes|, initiator, hop, finalNode);
  }

  /** In some run, for any initiator and any two different nodes, the translations of an ended route do not meet. */
  lemma TranslationsNeedNotMeet(initiator: Node, hop: Node, finalNode: Node, fallback: Fallbacks, context: Context)
    returns (states: seq<Network>, actions: seq<Action>)
    requires hop != finalNode
    ensures IsRun(states, actions) && |states[|actions|].routes| == 1
    ensures var s, route := states[|actions|], states[|actions|].routes[0];
            && route.nodes == [initiator, hop, finalNode] && route.endpoint.Some? && Shaped(route)
            && forall steps {:trigger TranslationsMeetAt(s, route, steps)} :: !TranslationsMeetAt(s, route, steps)
  {
    var s := Network(map[], {}, fallback, m => true, [], map[]);
    assert Ends([s], [], s);
    var live := RouteArises(s, initiator, hop, finalNode, 0, 1);
    var t := LiveRouteCanFail(live, 0, 1, context);
    states, actions :| Ends(states, actions, t);
  }
}
