/**
 * Route construction over many nodes. Every node has its own table; many routes are built at the same time,
 * walks may come back to nodes they have left, and every message of the handshake may be lost, repeated and
 * overtaken. Only ROUTE_CREATE is delivered at most once.
 */
module RouteNetwork {
  import opened Crypto
  import opened RouteTable
  import opened RouteWalk
  import opened Wrappers

  datatype BackKind = KemInfo | Ping | RouteOk | RouteFail

  datatype ForwardKind = Validate | Pong

  /**
   * `Publishing` and `Confirming` are handlers waiting for the DHT: the endpoint after a pong, the initiator after an
   * OK.
   */
  datatype Message =
    | Create(source: Node, target: Node, finalNode: Node, path: PathId, ttl: int, nonce: nat)
    | Backward(back: BackKind, source: Node, target: Node, path: PathId)
    | Onward(onward: ForwardKind, source: Node, target: Node, path: PathId)
    | Publishing(target: Node, path: PathId, previous: Node)
    | Confirming(target: Node, path: PathId)

  /**
   * The history of one route: `ids[j]` travels from `nodes[j]` to `nodes[j + 1]`, and row `rows[j]` of the table
   * of `nodes[j]` was made for it (the initiator's row for j = 0, a hop row otherwise). `endpoint` is the row
   * of the final node once the walk has reached it.
   */
  datatype Route = Route(finalNode: Node, nodes: seq<Node>, ids: seq<PathId>, rows: seq<nat>, endpoint: Option<nat>,
                         ttl: int, budget: int, nonce: nat)

  datatype Place = Place(route: nat, position: nat)

  /**
   * `routes` and `owner` are history; `fallback` is each node's configured round trip to a previous hop that it has not
   * measured, and `work` the test of the proof of work that every node makes of a ROUTE_CREATE.
   */
  datatype Network = Network(tables: map<Node, seq<Row>>, messages: set<Message>, fallback: Fallbacks,
                             work: Message -> bool, routes: seq<Route>, owner: map<PathId, Place>)

  function Table(s: Network, n: Node): seq<Row> {
    if n in s.tables then s.tables[n] else []
  }

  function WithTable(s: Network, n: Node, rows: seq<Row>): Network {
    s.(tables := s.tables[n := rows])
  }

  function Sends(s: Network, m: Message): Network {
    s.(messages := s.messages + {m})
  }

  // ---------------------------------------------------------------- steps

  /**
   * `accepted` is the outcome of the signature, key and payload checks of a handler, `inTime` that of the pong's
   * identifier and round-trip checks, `stored` and `visible` what the DHT answered. `Retire` is the route maintenance
   * of a node, which gives up a route that stays pending or is no longer seen.
   */
  datatype Action =
    | Start(initiator: Node, firstHop: Node, finalNode: Node, path: PathId, nonce: nat, expectedTtl: Option<int>,
        virtualNode: Option<Node>, ttl: int, delivered: bool)
    | Extend(create: Message, candidates: seq<Candidate>, pick: nat, newPath: PathId)
    | Arrive(create: Message, kemKey: nat)
    | HandleBackward(message: Message, accepted: bool, claim: Claim)
    | HandleOnward(message: Message, accepted: bool, inTime: bool, context: Context)
    | Published(message: Message, stored: bool)
    | Confirmed(message: Message, visible: bool, finalPath: PathId, signature: Signature)
    | Retire(initiator: Node, path: PathId)
    | Lose(message: Message)

  predicate Enabled(s: Network, a: Action) {
    match a
    case Start(_, _, _, path, _, _, _, ttl, _) => path !in s.owner && ttl >= 1
    // a request without valid work is refused: the same as losing it
    case Extend(m, _, _, newPath) => m in s.messages && m.Create? && s.work(m) && m.target != m.finalNode
        && newPath !in s.owner
    case Arrive(m, _) => m in s.messages && m.Create? && s.work(m) && m.target == m.finalNode
    case HandleBackward(m, _, _) => m in s.messages && m.Backward?
    case HandleOnward(m, _, _, _) => m in s.messages && m.Onward?
    case Published(m, _) => m in s.messages && m.Publishing?
    case Confirmed(m, _, _, _) => m in s.messages && m.Confirming?
    case Retire(_, _) => true
    case Lose(_) => true
  }

  function StartRoute(s: Network, initiator: Node, firstHop: Node, finalNode: Node, path: PathId, nonce: nat,
                      expectedTtl: Option<int>, virtualNode: Option<Node>, ttl: int, delivered: bool): Network
  {
    var rows := Table(s, initiator);
    var row := Row(true, PendingKemOffer, Initiator(firstHop, finalNode, path, nonce, expectedTtl, virtualNode, None,
        None, None));
    var kept := if delivered then rows + [row] else Invalidate(rows + [row], InitiatorBy(path));
    var route := Route(finalNode, [initiator, firstHop], [path], [|rows|], None, ttl, ttl, nonce);
    var t := WithTable(s, initiator, kept).(routes := s.routes + [route], owner :=
        s.owner[path := Place(|s.routes|, 0)]);
    if delivered then Sends(t, Create(initiator, firstHop, finalNode, path, ttl, nonce)) else t
  }

  function ExtendRoute(s: Network, m: Message, candidates: seq<Candidate>, pick: nat, newPath: PathId): Network
    requires m.Create?
  {
    var chosen := SelectNext(candidates, m.finalNode, m.source, m.ttl, s.fallback(m.target), pick);
    var ttl := NextTtl(m.ttl, OneWay(chosen.averageRtt));
    var rows := Table(s, m.target);
    var row := Row(true, Forwarding, Hop(m.source, chosen.node, m.path, newPath));
    var t := WithTable(s, m.target, rows + [row]);
    var grown :=
      if m.path in s.owner && s.owner[m.path].route < |s.routes| then
        var r := s.owner[m.path].route;
        var old' := s.routes[r];
        t.(routes := s.routes[r := old'.(nodes := old'.nodes + [chosen.node], ids := old'.ids + [newPath],
                                         rows := old'.rows + [|rows|], ttl := ttl)],
           owner := s.owner[newPath := Place(r, |old'.ids|)])
      else t;
    grown.(messages := s.messages - {m} + {Create(m.target, chosen.node, m.finalNode, newPath, ttl, m.nonce)})
  }

  function ArriveAtFinal(s: Network, m: Message, kemKey: nat): Network
    requires m.Create?
  {
    var rows := Table(s, m.target);
    var row := Row(true, PendingValidation, Endpoint(m.source, m.path, m.nonce, kemKey, None));
    var t := WithTable(s, m.target, rows + [row]);
    var ended :=
      if m.path in s.owner && s.owner[m.path].route < |s.routes| then
        var r := s.owner[m.path].route;
        t.(routes := s.routes[r := s.routes[r].(endpoint := Some(|rows|))])
      else t;
    ended.(messages := s.messages - {m} + {Backward(KemInfo, m.target, m.source, m.path)})
  }

  /** A message towards the initiator: relayed by the hop that generated its path id, otherwise meant for this node. */
  function HandleBack(s: Network, m: Message, accepted: bool, claim: Claim): Network
    requires m.Backward?
  {
    var rows := Table(s, m.target);
    var hop := Newest(rows, ByGenerated(m.path));
    if hop.Some? then
      var d := rows[hop.value].detail;
      var t := if m.back == RouteFail then WithTable(s, m.target, Invalidate(rows, HopByEither(m.path))) else s;
      Sends(t, Backward(m.back, m.target, d.fromNode, d.received))
    else HandleBackLocally(s, m, accepted, claim)
  }

  function HandleBackLocally(s: Network, m: Message, accepted: bool, claim: Claim): Network
    requires m.Backward?
  {
    var rows := Table(s, m.target);
    var own := Newest(rows, InitiatorBy(m.path));
    if own.None? then s
    else
      var firstHop := rows[own.value].detail.firstHop;
      match m.back
      case KemInfo =>
        if !accepted then s
        else
          Sends(WithTable(s, m.target, SetClaim(rows, m.path, claim)),
                Onward(Validate, m.target, firstHop, m.path))
      case Ping => Sends(s, Onward(Pong, m.target, firstHop, m.path))
      case RouteOk => if !accepted then s else Sends(s, Confirming(m.target, m.path))
      case RouteFail => WithTable(s, m.target, Invalidate(rows, InitiatorBy(m.path)))
  }

  /** A message towards the final node: relayed by the hop that received its path id, otherwise meant for this node. */
  function HandleOn(s: Network, m: Message, accepted: bool, inTime: bool, context: Context): Network
    requires m.Onward?
  {
    var rows := Table(s, m.target);
    var hop := Newest(rows, ByReceived(m.path));
    if hop.Some? then
      var d := rows[hop.value].detail;
      Sends(s, Onward(m.onward, m.target, d.toNode, d.generated))
    else
      var own := Newest(rows, EndpointBy(m.path));
      if own.None? || !accepted then s
      else
        var previous := rows[own.value].detail.previous;
        if m.onward == Validate then
          Sends(WithTable(s, m.target, SetContext(rows, m.path, context)), Backward(Ping, m.target, previous, m.path))
        else if inTime then
          Sends(WithTable(s, m.target, SetStatus(rows, EndpointBy(m.path), Active)),
              Publishing(m.target, m.path, previous))
        else FailRoute(s, m.target, m.path, previous)
  }

  function FailRoute(s: Network, n: Node, path: PathId, previous: Node): Network {
    Sends(WithTable(s, n, Invalidate(Table(s, n), EndpointBy(path))), Backward(RouteFail, n, previous, path))
  }

  function Next(s: Network, a: Action): Network
    requires Enabled(s, a)
  {
    match a
    case Start(initiator, firstHop, finalNode, path, nonce, expectedTtl, virtualNode, ttl, delivered) =>
      StartRoute(s, initiator, firstHop, finalNode, path, nonce, expectedTtl, virtualNode, ttl, delivered)
    case Extend(m, candidates, pick, newPath) => ExtendRoute(s, m, candidates, pick, newPath)
    case Arrive(m, kemKey) => ArriveAtFinal(s, m, kemKey)
    case HandleBackward(m, accepted, claim) => HandleBack(s, m, accepted, claim)
    case HandleOnward(m, accepted, inTime, context) => HandleOn(s, m, accepted, inTime, context)
    case Published(m, stored) =>
      if stored then Sends(s, Backward(RouteOk, m.target, m.previous, m.path))
          else FailRoute(s, m.target, m.path, m.previous)
    case Confirmed(m, visible, finalPath, signature) =>
      WithTable(s, m.target,
                if visible then SetActive(Table(s, m.target), m.path, finalPath, signature)
                else Invalidate(Table(s, m.target), InitiatorBy(m.path)))
    case Retire(initiator, path) => WithTable(s, initiator, Invalidate(Table(s, initiator), InitiatorBy(path)))
    case Lose(m) => s.(messages := s.messages - {m})
  }

  // ---------------------------------------------------------------- the invariant

  ghost predicate OwnerIsInverse(s: Network) {
    && (forall p :: p in s.owner ==>
          && s.owner[p].route < |s.routes|
          && s.owner[p].position < |s.routes[s.owner[p].route].ids|
          && s.routes[s.owner[p].route].ids[s.owner[p].position] == p)
    && (forall r, j :: 0 <= r < |s.routes| && 0 <= j < |s.routes[r].ids| ==>
          s.routes[r].ids[j] in s.owner && s.owner[s.routes[r].ids[j]] == Place(r, j))
  }

  ghost predicate Shaped(route: Route) {
    && |route.ids| >= 1
    && |route.nodes| == |route.ids| + 1
    && |route.rows| == |route.ids|
    && (route.endpoint.Some? ==> route.nodes[|route.ids|] == route.finalNode)
  }

  /** What the table of `nodes[j]` holds for position j. */
  ghost predicate RowIsFor(route: Route, j: nat, row: Row)
    requires Shaped(route) && j < |route.ids|
  {
    var d := row.detail;
    if j == 0 then
      d.Initiator? && d.initial == route.ids[0] && d.firstHop == route.nodes[1] && d.finalNode == route.finalNode
    else
      && d.Hop? && d.received == route.ids[j - 1] && d.generated == route.ids[j]
      && d.fromNode == route.nodes[j - 1] && d.toNode == route.nodes[j + 1]
  }

  ghost predicate EndpointIsFor(route: Route, row: Row)
    requires Shaped(route)
  {
    var d := row.detail;
    d.Endpoint? && d.routePath == route.ids[|route.ids| - 1] && d.previous == route.nodes[|route.ids| - 1]
  }

  ghost predicate StoredAt(s: Network, route: Route, j: nat)
    requires Shaped(route) && j < |route.ids|
  {
    route.rows[j] < |Table(s, route.nodes[j])| && RowIsFor(route, j, Table(s, route.nodes[j])[route.rows[j]])
  }

  ghost predicate RouteIsStored(s: Network, route: Route) {
    && Shaped(route)
    && (forall j {:trigger StoredAt(s, route, j)} :: 0 <= j < |route.ids| ==> StoredAt(s, route, j))
    && (route.endpoint.Some? ==>
          && route.endpoint.value < |Table(s, route.finalNode)|
          && EndpointIsFor(route, Table(s, route.finalNode)[route.endpoint.value]))
  }

  /** The path id that a row is found by. */
  function Key(row: Row): PathId {
    match row.detail
    case Hop(_, _, _, generated) => generated
    case Endpoint(_, routePath, _, _, _) => routePath
    case Initiator(_, _, initial, _, _, _, _, _, _) => initial
  }

  /** Row i of node n belongs to exactly one place of one route. */
  ghost predicate RowIsPlaced(s: Network, n: Node, i: nat)
    requires i < |Table(s, n)|
  {
    var row := Table(s, n)[i];
    && Key(row) in s.owner
    && s.owner[Key(row)].route < |s.routes|
    && var route := s.routes[s.owner[Key(row)].route];
       var j := s.owner[Key(row)].position;
       && Shaped(route)
       && j < |route.ids|
       && if row.detail.Endpoint? then route.endpoint == Some(i) && n == route.finalNode
          else n == route.nodes[j] && i == route.rows[j]
  }

  ghost predicate Structure(s: Network) {
    && OwnerIsInverse(s)
    && (forall r {:trigger RouteIsStored(s, s.routes[r])} :: 0 <= r < |s.routes| ==> RouteIsStored(s, s.routes[r]))
    && (forall n, i {:trigger RowIsPlaced(s, n, i)} :: 0 <= i < |Table(s, n)| ==> RowIsPlaced(s, n, i))
  }

  ghost predicate Dead(s: Network, route: Route, k: nat)
    requires Shaped(route) && k < |route.ids|
  {
    StoredAt(s, route, k) && !Table(s, route.nodes[k])[route.rows[k]].valid
  }

  /** Rows from position j on, and the endpoint's row, are invalid. */
  ghost predicate DeadFrom(s: Network, route: Route, j: nat)
    requires RouteIsStored(s, route)
  {
    && route.endpoint.Some?
    && !Table(s, route.finalNode)[route.endpoint.value].valid
    && forall k :: j <= k < |route.ids| ==> Dead(s, route, k)
  }

  /** What a message in flight says about the route and the position its path id names. */
  ghost predicate Travels(s: Network, route: Route, j: nat, m: Message)
    requires RouteIsStored(s, route) && j < |route.ids|
  {
    match m
    case Create(source, target, finalNode, _, ttl, nonce) =>
      && j == |route.ids| - 1 && source == route.nodes[j] && target == route.nodes[j + 1]
      && finalNode == route.finalNode && ttl == route.ttl && nonce == route.nonce && route.endpoint.None?
    case Backward(back, source, target, _) =>
      && route.endpoint.Some? && source == route.nodes[j + 1] && target == route.nodes[j]
      && (back == RouteFail ==> DeadFrom(s, route, j + 1))
    case Onward(_, source, target, _) =>
      route.endpoint.Some? && source == route.nodes[j] && target == route.nodes[j + 1]
    case Publishing(target, _, previous) =>
      && route.endpoint.Some? && j == |route.ids| - 1
      && target == route.finalNode && previous == route.nodes[j]
    case Confirming(target, _) => route.endpoint.Some? && j == 0 && target == route.nodes[0]
  }

  ghost predicate MessageIsOnRoute(s: Network, m: Message) {
    && m.path in s.owner
    && s.owner[m.path].route < |s.routes|
    && var route := s.routes[s.owner[m.path].route];
       RouteIsStored(s, route) && s.owner[m.path].position < |route.ids|
           && Travels(s, route, s.owner[m.path].position, m)
  }

  ghost predicate Invariant(s: Network) {
    && Structure(s)
    && forall m :: m in s.messages ==> MessageIsOnRoute(s, m)
  }

  predicate Init(s: Network) {
    s.tables == map[] && s.messages == {} && s.routes == [] && s.owner == map[]
  }

  // ---------------------------------------------------------------- lookups under the invariant

  ghost predicate Located(s: Network, p: PathId) {
    && p in s.owner
    && s.owner[p].route < |s.routes|
    && Shaped(s.routes[s.owner[p].route])
    && s.owner[p].position < |s.routes[s.owner[p].route].ids|
    && s.routes[s.owner[p].route].ids[s.owner[p].position] == p
  }

  /** Where the row made for a path id is. */
  lemma HopRowIsUnique(s: Network, n: Node, i: nat, p: PathId)
    requires Structure(s) && i < |Table(s, n)| && Matches(Table(s, n)[i], ByGenerated(p))
    ensures Located(s, p) && s.owner[p].position > 0
    ensures var at := s.owner[p];
            n == s.routes[at.route].nodes[at.position] && i == s.routes[at.route].rows[at.position]
  {
    assert RowIsPlaced(s, n, i);
    var at := s.owner[p];
    assert RouteIsStored(s, s.routes[at.route]);
    assert StoredAt(s, s.routes[at.route], at.position);
  }

  lemma RowAt(s: Network, r: nat, j: nat)
    requires Structure(s) && r < |s.routes| && j < |s.routes[r].ids|
    ensures RouteIsStored(s, s.routes[r]) && StoredAt(s, s.routes[r], j)
    ensures s.routes[r].ids[j] in s.owner && s.owner[s.routes[r].ids[j]] == Place(r, j)
  {
  }

  lemma ReceivedRowIsUnique(s: Network, n: Node, i: nat, p: PathId)
    requires Structure(s) && i < |Table(s, n)| && Matches(Table(s, n)[i], ByReceived(p))
    ensures Located(s, p)
    ensures var at := s.owner[p];
            && at.position + 1 < |s.routes[at.route].ids|
            && n == s.routes[at.route].nodes[at.position + 1]
            && i == s.routes[at.route].rows[at.position + 1]
  {
    var g := Table(s, n)[i].detail.generated;
    HopRowIsUnique(s, n, i, g);
    var at := s.owner[g];
    RowAt(s, at.route, at.position);
    RowAt(s, at.route, at.position - 1);
  }

  lemma EndpointRowIsUnique(s: Network, n: Node, i: nat, p: PathId)
    requires Structure(s) && i < |Table(s, n)| && Matches(Table(s, n)[i], EndpointBy(p))
    ensures Located(s, p)
    ensures var route := s.routes[s.owner[p].route];
            s.owner[p].position == |route.ids| - 1 && n == route.finalNode && route.endpoint == Some(i)
  {
    assert RowIsPlaced(s, n, i);
    var route := s.routes[s.owner[p].route];
    assert RouteIsStored(s, route);
    assert EndpointIsFor(route, Table(s, n)[i]);
  }

  lemma InitiatorRowIsUnique(s: Network, n: Node, i: nat, p: PathId)
    requires Structure(s) && i < |Table(s, n)| && Matches(Table(s, n)[i], InitiatorBy(p))
    ensures Located(s, p) && s.owner[p].position == 0
    ensures var route := s.routes[s.owner[p].route]; n == route.nodes[0] && i == route.rows[0]
  {
    assert RowIsPlaced(s, n, i);
    var at := s.owner[p];
    assert RouteIsStored(s, s.routes[at.route]);
    assert StoredAt(s, s.routes[at.route], at.position);
  }

  // ---------------------------------------------------------------- updates in place keep the structure

  ghost predicate SameTables(s: Network, t: Network) {
    && t.routes == s.routes && t.owner == s.owner
    && forall n :: SameRows(Table(s, n), Table(t, n))
  }

  lemma IdentityDecides(route: Route, j: nat, before: Row, after: Row)
    requires Shaped(route) && Identity(before) == Identity(after)
    ensures Key(before) == Key(after) && (before.detail.Endpoint? <==> after.detail.Endpoint?)
    ensures j < |route.ids| && RowIsFor(route, j, before) ==> RowIsFor(route, j, after)
    ensures EndpointIsFor(route, before) ==> EndpointIsFor(route, after)
  {
  }

  lemma UpdateKeepsRoute(s: Network, t: Network, route: Route)
    requires SameTables(s, t) && RouteIsStored(s, route)
    ensures RouteIsStored(t, route)
  {
    forall j | 0 <= j < |route.ids| ensures StoredAt(t, route, j) {
      assert StoredAt(s, route, j);
      var n := route.nodes[j];
      assert SameRows(Table(s, n), Table(t, n));
      IdentityDecides(route, j, Table(s, n)[route.rows[j]], Table(t, n)[route.rows[j]]);
    }
    if route.endpoint.Some? {
      var n := route.finalNode;
      assert SameRows(Table(s, n), Table(t, n));
      IdentityDecides(route, 0, Table(s, n)[route.endpoint.value], Table(t, n)[route.endpoint.value]);
    }
  }

  lemma UpdateKeepsStructure(s: Network, t: Network)
    requires Structure(s) && SameTables(s, t)
    ensures Structure(t)
  {
    forall r | 0 <= r < |t.routes| ensures RouteIsStored(t, t.routes[r]) {
      UpdateKeepsRoute(s, t, s.routes[r]);
    }
    forall n, i | 0 <= i < |Table(t, n)| ensures RowIsPlaced(t, n, i) {
      assert SameRows(Table(s, n), Table(t, n));
      assert RowIsPlaced(s, n, i);
      IdentityDecides(s.routes[s.owner[Key(Table(s, n)[i])].route], 0, Table(s, n)[i], Table(t, n)[i]);
    }
  }

  lemma DeathIsKept(s: Network, t: Network, route: Route, j: nat)
    requires SameTables(s, t) && RouteIsStored(s, route) && RouteIsStored(t, route)
    requires DeadFrom(s, route, j)
    ensures DeadFrom(t, route, j)
  {
    assert SameRows(Table(s, route.finalNode), Table(t, route.finalNode));
    forall k | j <= k < |route.ids| ensures Dead(t, route, k) {
      assert Dead(s, route, k) && StoredAt(t, route, k);
      assert SameRows(Table(s, route.nodes[k]), Table(t, route.nodes[k]));
    }
  }

  lemma UpdateKeepsMessage(s: Network, t: Network, m: Message)
    requires SameTables(s, t) && MessageIsOnRoute(s, m)
    ensures MessageIsOnRoute(t, m)
  {
    var route := s.routes[s.owner[m.path].route];
    UpdateKeepsRoute(s, t, route);
    if m.Backward? && m.back == RouteFail {
      DeathIsKept(s, t, route, s.owner[m.path].position + 1);
    }
  }

  /** The common shape of every handler but the two that make rows: update rows in place, send at most one message. */
  lemma UpdateKeepsInvariant(s: Network, t: Network)
    requires Invariant(s) && SameTables(s, t)
    requires forall m :: m in t.messages && m !in s.messages ==> MessageIsOnRoute(t, m)
    ensures Invariant(t)
  {
    UpdateKeepsStructure(s, t);
    forall m | m in t.messages ensures MessageIsOnRoute(t, m) {
      if m in s.messages {
        UpdateKeepsMessage(s, t, m);
      }
    }
  }

  lemma OneTableChanged(s: Network, t: Network, n: Node, rows: seq<Row>)
    requires SameRows(Table(s, n), rows)
    requires t.tables == s.tables[n := rows] && t.routes == s.routes && t.owner == s.owner
    ensures SameTables(s, t)
  {
  }

  lemma NoTableChanged(s: Network, t: Network)
    requires t.tables == s.tables && t.routes == s.routes && t.owner == s.owner
    ensures SameTables(s, t)
  {
    assert forall n :: Table(s, n) == Table(t, n);
  }

  // ---------------------------------------------------------------- messages towards the initiator

  lemma SentIsOnRoute(s: Network, t: Network, m: Message)
    requires Structure(s) && SameTables(s, t)
    requires m.path in s.owner && s.owner[m.path].route < |s.routes|
    requires RouteIsStored(t, s.routes[s.owner[m.path].route])
    requires s.owner[m.path].position < |s.routes[s.owner[m.path].route].ids|
    requires Travels(t, s.routes[s.owner[m.path].route], s.owner[m.path].position, m)
    ensures MessageIsOnRoute(t, m)
  {
  }

  /**
   * The row that `invalidate_hop_resolution_by_path_id` picks for a FAIL is the hop that generated the path id, no
   * other.
   */
  lemma FailPicksTheHop(s: Network, m: Message, i: nat)
    requires Structure(s) && MessageIsOnRoute(s, m) && m.Backward? && m.back == RouteFail
    requires Newest(Table(s, m.target), ByGenerated(m.path)) == Some(i)
    ensures Invalidate(Table(s, m.target), HopByEither(m.path)) ==
        Table(s, m.target)[i := Invalidated(Table(s, m.target)[i])]
  {
    var n, p, rows := m.target, m.path, Table(s, m.target);
    HopRowIsUnique(s, n, i, p);
    forall k | 0 <= k < |rows| && k != i ensures !Hit(rows[k], HopByEither(p)) {
      if Matches(rows[k], ByGenerated(p)) {
        HopRowIsUnique(s, n, k, p);
      }
      if Matches(rows[k], ByReceived(p)) {
        ReceivedRowIsUnique(s, n, k, p);
        assert Dead(s, s.routes[s.owner[p].route], s.owner[p].position + 1);
      }
    }
    InvalidateHits(rows, HopByEither(p), i);
  }

  /** What the row of the relaying hop says about the route of a message on its way back. */
  lemma RelayedBack(s: Network, m: Message, i: nat)
    requires Structure(s) && MessageIsOnRoute(s, m) && m.Backward?
    requires Newest(Table(s, m.target), ByGenerated(m.path)) == Some(i)
    ensures Located(s, m.path) && s.owner[m.path].position > 0
    ensures var at, d := s.owner[m.path], Table(s, m.target)[i].detail;
            var route := s.routes[at.route];
            && RouteIsStored(s, route) && route.endpoint.Some?
            && m.target == route.nodes[at.position] && i == route.rows[at.position]
            && d.Hop? && d.received == route.ids[at.position - 1] && d.fromNode == route.nodes[at.position - 1]
            && d.received in s.owner && s.owner[d.received] == Place(at.route, at.position - 1)
            && (m.back == RouteFail ==> DeadFrom(s, route, at.position + 1))
  {
    HopRowIsUnique(s, m.target, i, m.path);
    var at := s.owner[m.path];
    RowAt(s, at.route, at.position);
    RowAt(s, at.route, at.position - 1);
  }

  lemma RelayKeepsInvariant(s: Network, m: Message, i: nat, t: Network)
    requires Invariant(s) && m in s.messages && m.Backward? && m.back != RouteFail
    requires Newest(Table(s, m.target), ByGenerated(m.path)) == Some(i)
    requires var d := Table(s, m.target)[i].detail; t == Sends(s, Backward(m.back, m.target, d.fromNode, d.received))
    ensures Invariant(t)
  {
    var d := Table(s, m.target)[i].detail;
    RelayedBack(s, m, i);
    NoTableChanged(s, t);
    UpdateKeepsRoute(s, t, s.routes[s.owner[m.path].route]);
    SentIsOnRoute(s, t, Backward(m.back, m.target, d.fromNode, d.received));
    UpdateKeepsInvariant(s, t);
  }

  lemma RelayFailKeepsInvariant(s: Network, m: Message, i: nat, t: Network)
    requires Invariant(s) && m in s.messages && m.Backward? && m.back == RouteFail
    requires Newest(Table(s, m.target), ByGenerated(m.path)) == Some(i)
    requires var rows := Table(s, m.target);
             t == Sends(WithTable(s, m.target, Invalidate(rows, HopByEither(m.path))),
                        Backward(RouteFail, m.target, rows[i].detail.fromNode, rows[i].detail.received))
    ensures Invariant(t)
  {
    var rows := Table(s, m.target);
    var sent := Backward(RouteFail, m.target, rows[i].detail.fromNode, rows[i].detail.received);
    RelayedBack(s, m, i);
    FailPicksTheHop(s, m, i);
    OneTableChanged(s, t, m.target, Invalidate(rows, HopByEither(m.path)));
    var at := s.owner[m.path];
    FailedHopIsDead(s, t, s.routes[at.route], at.position, i);
    SentIsOnRoute(s, t, sent);
    UpdateKeepsInvariant(s, t);
  }

  lemma FailedHopIsDead(s: Network, t: Network, route: Route, j: nat, i: nat)
    requires SameTables(s, t) && RouteIsStored(s, route) && j < |route.ids| && i == route.rows[j]
        && DeadFrom(s, route, j + 1)
    requires i < |Table(t, route.nodes[j])| && !Table(t, route.nodes[j])[i].valid
    ensures RouteIsStored(t, route) && DeadFrom(t, route, j)
  {
    UpdateKeepsRoute(s, t, route);
    DeathIsKept(s, t, route, j + 1);
    assert StoredAt(t, route, j);
  }

  lemma RelayBackKeepsInvariant(s: Network, m: Message, i: nat, t: Network)
    requires Invariant(s) && m in s.messages && m.Backward?
    requires Newest(Table(s, m.target), ByGenerated(m.path)) == Some(i)
    requires t == HandleBack(s, m, true, Claim(0, 0, Signed(0, KemOffer(0)), Shared(0, 0)))
    ensures Invariant(t)
  {
    if m.back == RouteFail {
      RelayFailKeepsInvariant(s, m, i, t);
    } else {
      RelayKeepsInvariant(s, m, i, t);
    }
  }

  lemma LocalBackKeepsInvariant(s: Network, m: Message, accepted: bool, claim: Claim)
    requires Invariant(s) && m in s.messages && m.Backward?
    ensures Invariant(HandleBackLocally(s, m, accepted, claim))
  {
    var n, p, rows := m.target, m.path, Table(s, m.target);
    var t := HandleBackLocally(s, m, accepted, claim);
    var own := Newest(rows, InitiatorBy(p));
    if own.Some? {
      InitiatorRowIsUnique(s, n, own.value, p);
      var route := s.routes[s.owner[p].route];
      RowAt(s, s.owner[p].route, 0);
      assert MessageIsOnRoute(s, m);
      match m.back {
        case KemInfo =>
          if accepted {
            OneTableChanged(s, t, n, SetClaim(rows, p, claim));
            UpdateKeepsRoute(s, t, route);
            SentIsOnRoute(s, t, Onward(Validate, n, route.nodes[1], p));
            UpdateKeepsInvariant(s, t);
          }
        case Ping =>
          NoTableChanged(s, t);
          UpdateKeepsRoute(s, t, route);
          SentIsOnRoute(s, t, Onward(Pong, n, route.nodes[1], p));
          UpdateKeepsInvariant(s, t);
        case RouteOk =>
          if accepted {
            NoTableChanged(s, t);
            UpdateKeepsRoute(s, t, route);
            SentIsOnRoute(s, t, Confirming(n, p));
            UpdateKeepsInvariant(s, t);
          }
        case RouteFail =>
          OneTableChanged(s, t, n, Invalidate(rows, InitiatorBy(p)));
          UpdateKeepsInvariant(s, t);
      }
    }
  }

  // ---------------------------------------------------------------- messages towards the final node

  lemma FailRouteKeepsInvariant(s: Network, p: PathId)
    requires Invariant(s) && Located(s, p)
    requires s.routes[s.owner[p].route].endpoint.Some?
    requires s.owner[p].position == |s.routes[s.owner[p].route].ids| - 1
    ensures var route := s.routes[s.owner[p].route];
            && var t := FailRoute(s, route.finalNode, p, route.nodes[|route.ids| - 1]);
               Invariant(t) && SameTables(s, t) && RouteIsStored(t, route) && DeadFrom(t, route, |route.ids|)
  {
    var r := s.owner[p].route;
    var route := s.routes[r];
    RowAt(s, r, |route.ids| - 1);
    var n, rows := route.finalNode, Table(s, route.finalNode);
    var t := FailRoute(s, n, p, route.nodes[|route.ids| - 1]);
    forall k | 0 <= k < |rows| && k != route.endpoint.value ensures !Hit(rows[k], EndpointBy(p)) {
      if Matches(rows[k], EndpointBy(p)) {
        EndpointRowIsUnique(s, n, k, p);
      }
    }
    InvalidateHits(rows, EndpointBy(p), route.endpoint.value);
    OneTableChanged(s, t, n, Invalidate(rows, EndpointBy(p)));
    UpdateKeepsRoute(s, t, route);
    SentIsOnRoute(s, t, Backward(RouteFail, n, route.nodes[|route.ids| - 1], p));
    UpdateKeepsInvariant(s, t);
  }

  lemma RelayOnKeepsInvariant(s: Network, m: Message, i: nat, t: Network)
    requires Invariant(s) && m in s.messages && m.Onward?
    requires Newest(Table(s, m.target), ByReceived(m.path)) == Some(i)
    requires t == Sends(s, Onward(m.onward, m.target, Table(s, m.target)[i].detail.toNode,
        Table(s, m.target)[i].detail.generated))
    ensures Invariant(t)
  {
    ReceivedRowIsUnique(s, m.target, i, m.path);
    var at := s.owner[m.path];
    RowAt(s, at.route, at.position);
    RowAt(s, at.route, at.position + 1);
    assert MessageIsOnRoute(s, m);
    var d := Table(s, m.target)[i].detail;
    NoTableChanged(s, t);
    UpdateKeepsRoute(s, t, s.routes[at.route]);
    SentIsOnRoute(s, t, Onward(m.onward, m.target, d.toNode, d.generated));
    UpdateKeepsInvariant(s, t);
  }

  lemma EndpointIsHere(s: Network, m: Message)
    requires Structure(s) && MessageIsOnRoute(s, m) && m.Onward?
    requires Newest(Table(s, m.target), EndpointBy(m.path)).Some?
    ensures Located(s, m.path)
    ensures var route, j := s.routes[s.owner[m.path].route], s.owner[m.path].position;
            && RouteIsStored(s, route) && route.endpoint.Some? && j == |route.ids| - 1
            && m.target == route.finalNode == route.nodes[j + 1]
            && Table(s, m.target)[Newest(Table(s, m.target), EndpointBy(m.path)).value].detail.previous ==
                route.nodes[j]
  {
    var i := Newest(Table(s, m.target), EndpointBy(m.path)).value;
    EndpointRowIsUnique(s, m.target, i, m.path);
    RowAt(s, s.owner[m.path].route, s.owner[m.path].position);
  }

  /** The endpoint answers with a message of its own: a ping, or a wait for the DHT. */
  lemma EndpointAnswerKeepsInvariant(s: Network, t: Network, m: Message, sent: Message)
    requires Invariant(s) && m in s.messages && m.Onward? && SameTables(s, t)
    requires Newest(Table(s, m.target), EndpointBy(m.path)).Some?
    requires t.messages == s.messages + {sent}
    requires var previous := Table(s, m.target)[Newest(Table(s, m.target), EndpointBy(m.path)).value].detail.previous;
             sent == Backward(Ping, m.target, previous, m.path) || sent == Publishing(m.target, m.path, previous)
    ensures Invariant(t)
  {
    assert MessageIsOnRoute(s, m);
    EndpointIsHere(s, m);
    UpdateKeepsRoute(s, t, s.routes[s.owner[m.path].route]);
    SentIsOnRoute(s, t, sent);
    UpdateKeepsInvariant(s, t);
  }

  lemma LocalOnKeepsInvariant(s: Network, m: Message, inTime: bool, context: Context)
    requires Invariant(s) && m in s.messages && m.Onward?
    requires Newest(Table(s, m.target), ByReceived(m.path)).None?
    requires Newest(Table(s, m.target), EndpointBy(m.path)).Some?
    ensures Invariant(HandleOn(s, m, true, inTime, context))
  {
    var n, p, rows := m.target, m.path, Table(s, m.target);
    var t := HandleOn(s, m, true, inTime, context);
    var previous := rows[Newest(rows, EndpointBy(p)).value].detail.previous;
    if m.onward == Validate {
      OneTableChanged(s, t, n, SetContext(rows, p, context));
      EndpointAnswerKeepsInvariant(s, t, m, Backward(Ping, n, previous, p));
    } else if inTime {
      OneTableChanged(s, t, n, SetStatus(rows, EndpointBy(p), Active));
      EndpointAnswerKeepsInvariant(s, t, m, Publishing(n, p, previous));
    } else {
      assert MessageIsOnRoute(s, m);
      EndpointIsHere(s, m);
      FailRouteKeepsInvariant(s, p);
    }
  }

  lemma OnwardKeepsInvariant(s: Network, m: Message, accepted: bool, inTime: bool, context: Context)
    requires Invariant(s) && m in s.messages && m.Onward?
    ensures Invariant(HandleOn(s, m, accepted, inTime, context))
  {
    var rows := Table(s, m.target);
    var hop := Newest(rows, ByReceived(m.path));
    if hop.Some? {
      RelayOnKeepsInvariant(s, m, hop.value, HandleOn(s, m, accepted, inTime, context));
    } else if Newest(rows, EndpointBy(m.path)).Some? && accepted {
      LocalOnKeepsInvariant(s, m, inTime, context);
    }
  }

  lemma PublishedKeepsInvariant(s: Network, m: Message, stored: bool)
    requires Invariant(s) && m in s.messages && m.Publishing?
    ensures Invariant(Next(s, Published(m, stored)))
  {
    var t := Next(s, Published(m, stored));
    assert MessageIsOnRoute(s, m);
    if stored {
      NoTableChanged(s, t);
      UpdateKeepsRoute(s, t, s.routes[s.owner[m.path].route]);
      SentIsOnRoute(s, t, Backward(RouteOk, m.target, m.previous, m.path));
      UpdateKeepsInvariant(s, t);
    } else {
      FailRouteKeepsInvariant(s, m.path);
    }
  }

  lemma ConfirmedKeepsInvariant(s: Network, m: Message, visible: bool, finalPath: PathId, signature: Signature)
    requires Invariant(s) && m in s.messages && m.Confirming?
    ensures Invariant(Next(s, Confirmed(m, visible, finalPath, signature)))
  {
    var t := Next(s, Confirmed(m, visible, finalPath, signature));
    OneTableChanged(s, t, m.target, Table(t, m.target));
    UpdateKeepsInvariant(s, t);
  }

  lemma LossKeepsInvariant(s: Network, m: Message)
    requires Invariant(s)
    ensures Invariant(Next(s, Lose(m)))
  {
    var t := Next(s, Lose(m));
    NoTableChanged(s, t);
    UpdateKeepsInvariant(s, t);
  }

  // ---------------------------------------------------------------- steps that make a row

  /** Same route, possibly with more hops or with its endpoint. */
  ghost predicate Grown(before: Route, after: Route) {
    && Shaped(after)
    && before.ids <= after.ids && before.nodes <= after.nodes && before.rows <= after.rows
    && before.finalNode == after.finalNode
    && (before.endpoint.Some? ==> after == before)
  }

  ghost predicate Grows(s: Network, t: Network) {
    && (forall n :: Table(s, n) <= Table(t, n))
    && (forall p :: p in s.owner ==> p in t.owner && t.owner[p] == s.owner[p])
    && |s.routes| <= |t.routes|
    && (forall r :: 0 <= r < |s.routes| ==> Grown(s.routes[r], t.routes[r]))
  }

  lemma GrowthKeepsRow(s: Network, t: Network, n: Node, i: nat)
    requires Grows(s, t) && i < |Table(s, n)| && RowIsPlaced(s, n, i)
    ensures i < |Table(t, n)| && RowIsPlaced(t, n, i)
  {
    var at := s.owner[Key(Table(s, n)[i])];
    assert Table(s, n) <= Table(t, n);
    assert Grown(s.routes[at.route], t.routes[at.route]);
  }

  lemma GrowthKeepsRoute(s: Network, t: Network, route: Route)
    requires Grows(s, t) && RouteIsStored(s, route)
    ensures RouteIsStored(t, route)
  {
    forall j | 0 <= j < |route.ids| ensures StoredAt(t, route, j) {
      assert StoredAt(s, route, j);
      assert Table(s, route.nodes[j]) <= Table(t, route.nodes[j]);
    }
    assert Table(s, route.finalNode) <= Table(t, route.finalNode);
  }

  lemma GrowthKeepsMessage(s: Network, t: Network, m: Message)
    requires Grows(s, t) && MessageIsOnRoute(s, m)
    requires t.routes[s.owner[m.path].route] == s.routes[s.owner[m.path].route]
    ensures MessageIsOnRoute(t, m)
  {
    var route, j := s.routes[s.owner[m.path].route], s.owner[m.path].position;
    GrowthKeepsRoute(s, t, route);
    if m.Backward? && m.back == RouteFail {
      assert Table(s, route.finalNode) <= Table(t, route.finalNode);
      forall k | j + 1 <= k < |route.ids| ensures Dead(t, route, k) {
        assert Dead(s, route, k) && StoredAt(t, route, k);
        assert Table(s, route.nodes[k]) <= Table(t, route.nodes[k]);
      }
    }
  }

  /** All rows are placed when the old ones were and the one new row is. */
  lemma OneRowMore(s: Network, t: Network, n: Node, row: Row)
    requires Structure(s) && Grows(s, t)
    requires t.tables == s.tables[n := Table(s, n) + [row]]
    requires RowIsPlaced(t, n, |Table(s, n)|)
    ensures forall x, i {:trigger RowIsPlaced(t, x, i)} :: 0 <= i < |Table(t, x)| ==> RowIsPlaced(t, x, i)
  {
    forall x, i | 0 <= i < |Table(t, x)| ensures RowIsPlaced(t, x, i) {
      if x != n || i < |Table(s, n)| {
        assert RowIsPlaced(s, x, i);
        GrowthKeepsRow(s, t, x, i);
      }
    }
  }

  /** A new path id at the end of the ids of a route keeps the map of owners exact. */
  lemma OwnerGrows(s: Network, t: Network, r: nat, ids: seq<PathId>, p: PathId)
    requires OwnerIsInverse(s) && p !in s.owner && |s.routes| <= |t.routes| && r < |t.routes|
    requires t.owner == s.owner[p := Place(r, |ids|)] && t.routes[r].ids == ids + [p]
    requires forall q :: 0 <= q < |t.routes| && q != r ==> q < |s.routes| && t.routes[q].ids == s.routes[q].ids
    requires if r < |s.routes| then s.routes[r].ids == ids else ids == []
    ensures OwnerIsInverse(t)
  {
    forall x | x in t.owner
      ensures && t.owner[x].route < |t.routes| && t.owner[x].position < |t.routes[t.owner[x].route].ids|
              && t.routes[t.owner[x].route].ids[t.owner[x].position] == x
    {
      assert x != p ==> x in s.owner;
    }
    forall q, j | 0 <= q < |t.routes| && 0 <= j < |t.routes[q].ids|
      ensures t.routes[q].ids[j] in t.owner && t.owner[t.routes[q].ids[j]] == Place(q, j)
    {
      if q != r || j < |ids| {
        assert t.routes[q].ids[j] == s.routes[q].ids[j];
      }
    }
  }

  lemma StartGrows(s: Network, a: Action)
    requires Invariant(s) && Enabled(s, a) && a.Start? && a.delivered
    ensures Grows(s, Next(s, a)) && OwnerIsInverse(Next(s, a))
  {
    var t := Next(s, a);
    OwnerGrows(s, t, |s.routes|, [], a.path);
    forall r | 0 <= r < |s.routes| ensures Grown(s.routes[r], t.routes[r]) {
      assert RouteIsStored(s, s.routes[r]);
    }
  }

  lemma StartKeepsStructure(s: Network, a: Action)
    requires Invariant(s) && Enabled(s, a) && a.Start? && a.delivered
    ensures Structure(Next(s, a))
  {
    var t := Next(s, a);
    StartGrows(s, a);
    assert StoredAt(t, t.routes[|s.routes|], 0);
    forall r | 0 <= r < |t.routes| ensures RouteIsStored(t, t.routes[r]) {
      if r < |s.routes| {
        assert RouteIsStored(s, s.routes[r]);
        GrowthKeepsRoute(s, t, s.routes[r]);
      }
    }
    OneRowMore(s, t, a.initiator, Table(t, a.initiator)[|Table(s, a.initiator)|]);
  }

  lemma StartKeepsInvariant(s: Network, a: Action)
    requires Invariant(s) && Enabled(s, a) && a.Start? && a.delivered
    ensures Invariant(Next(s, a))
  {
    var t := Next(s, a);
    StartGrows(s, a);
    StartKeepsStructure(s, a);
    assert RouteIsStored(t, t.routes[|s.routes|]);
    forall m | m in t.messages ensures MessageIsOnRoute(t, m) {
      if m in s.messages {
        assert MessageIsOnRoute(s, m);
        GrowthKeepsMessage(s, t, m);
      }
    }
  }

  /** A first hop that cannot be reached: the same as a start whose message is lost and whose row is invalidated. */
  lemma FailedStartIsUpdate(s: Network, a: Action)
    requires Enabled(s, a) && a.Start? && !a.delivered
    ensures var started, t := Next(s, a.(delivered := true)), Next(s, a);
            && t.tables == started.tables[a.initiator := Invalidate(Table(started, a.initiator), InitiatorBy(a.path))]
            && t.routes == started.routes && t.owner == started.owner && t.messages <= started.messages
  {
  }

  lemma FailedStartKeepsInvariant(s: Network, a: Action)
    requires Invariant(s) && Enabled(s, a) && a.Start? && !a.delivered
    ensures Invariant(Next(s, a))
  {
    var delivered := a.(delivered := true);
    StartKeepsInvariant(s, delivered);
    FailedStartIsUpdate(s, a);
    InvalidatedKeepsInvariant(Next(s, delivered), Next(s, a), a.initiator, InitiatorBy(a.path));
  }

  lemma InvalidatedKeepsInvariant(s: Network, t: Network, n: Node, q: Query)
    requires Invariant(s) && t.tables == s.tables[n := Invalidate(Table(s, n), q)]
    requires t.routes == s.routes && t.owner == s.owner && t.messages <= s.messages
    ensures Invariant(t)
  {
    OneTableChanged(s, t, n, Invalidate(Table(s, n), q));
    UpdateKeepsInvariant(s, t);
  }

  /** While ROUTE_CREATE is under way it is the only message of its route. */
  lemma CreateIsAlone(s: Network, m: Message, other: Message)
    requires Invariant(s) && m in s.messages && m.Create? && other in s.messages
    requires s.owner[other.path].route == s.owner[m.path].route
    ensures other == m
  {
    assert MessageIsOnRoute(s, m) && MessageIsOnRoute(s, other);
    assert s.routes[s.owner[m.path].route].ids[s.owner[m.path].position] == m.path;
    assert s.routes[s.owner[m.path].route].ids[s.owner[other.path].position] == other.path;
  }

  lemma OtherMessagesStay(s: Network, t: Network, m: Message, sent: Message)
    requires Invariant(s) && Grows(s, t) && m in s.messages && m.Create?
    requires t.messages == s.messages - {m} + {sent}
    requires forall r :: 0 <= r < |s.routes| && r != s.owner[m.path].route ==> t.routes[r] == s.routes[r]
    requires MessageIsOnRoute(t, sent)
    ensures forall x :: x in t.messages ==> MessageIsOnRoute(t, x)
  {
    forall x | x in t.messages ensures MessageIsOnRoute(t, x) {
      if x != sent {
        assert MessageIsOnRoute(s, x);
        if s.owner[x.path].route == s.owner[m.path].route {
          CreateIsAlone(s, m, x);
        }
        GrowthKeepsMessage(s, t, x);
      }
    }
  }

  lemma OtherRoutesStay(s: Network, t: Network, r: nat)
    requires Structure(s) && Grows(s, t) && r < |s.routes| && |t.routes| == |s.routes|
    requires forall q :: 0 <= q < |s.routes| && q != r ==> t.routes[q] == s.routes[q]
    requires RouteIsStored(t, t.routes[r])
    ensures forall q {:trigger RouteIsStored(t, t.routes[q])} :: 0 <= q < |t.routes| ==> RouteIsStored(t, t.routes[q])
  {
    forall q | 0 <= q < |t.routes| ensures RouteIsStored(t, t.routes[q]) {
      if q != r {
        assert RouteIsStored(s, s.routes[q]);
        GrowthKeepsRoute(s, t, s.routes[q]);
      }
    }
  }

  /** The state after an intermediary forwarded m to `node` under a new path id. */
  ghost predicate Extended(s: Network, t: Network, m: Message, node: Node, newPath: PathId, ttl: int) {
    && m.Create? && Located(s, m.path) && newPath !in s.owner
    && var r := s.owner[m.path].route;
    && var route := s.routes[r];
    && t.tables == s.tables[m.target :=
        Table(s, m.target) + [Row(true, Forwarding, Hop(m.source, node, m.path, newPath))]]
    && t.messages == s.messages - {m} + {Create(m.target, node, m.finalNode, newPath, ttl, m.nonce)}
    && t.routes == s.routes[r := route.(nodes := route.nodes + [node], ids := route.ids + [newPath],
                                        rows := route.rows + [|Table(s, m.target)|], ttl := ttl)]
    && t.owner == s.owner[newPath := Place(r, |route.ids|)]
  }

  lemma ExtendGrows(s: Network, t: Network, m: Message, node: Node, newPath: PathId, ttl: int)
    requires Invariant(s) && m in s.messages && Extended(s, t, m, node, newPath, ttl)
    ensures Grows(s, t) && OwnerIsInverse(t)
  {
    assert MessageIsOnRoute(s, m);
    OwnerGrows(s, t, s.owner[m.path].route, s.routes[s.owner[m.path].route].ids, newPath);
    forall q | 0 <= q < |s.routes| ensures Grown(s.routes[q], t.routes[q]) {
      assert RouteIsStored(s, s.routes[q]);
    }
  }

  lemma ExtendedIsStored(s: Network, t: Network, m: Message, node: Node, newPath: PathId, ttl: int)
    requires Invariant(s) && m in s.messages && Extended(s, t, m, node, newPath, ttl) && Grows(s, t)
    ensures RouteIsStored(t, t.routes[s.owner[m.path].route])
  {
    assert MessageIsOnRoute(s, m);
    var route, longer := s.routes[s.owner[m.path].route], t.routes[s.owner[m.path].route];
    GrowthKeepsRoute(s, t, route);
    forall j | 0 <= j < |longer.ids| ensures StoredAt(t, longer, j) {
      if j < |route.ids| {
        assert StoredAt(t, route, j);
      }
    }
  }

  lemma ExtendKeepsStructure(s: Network, t: Network, m: Message, node: Node, newPath: PathId, ttl: int)
    requires Invariant(s) && m in s.messages && Extended(s, t, m, node, newPath, ttl)
    ensures Structure(t) && Grows(s, t)
  {
    ExtendGrows(s, t, m, node, newPath, ttl);
    ExtendedIsStored(s, t, m, node, newPath, ttl);
    assert MessageIsOnRoute(s, m);
    OtherRoutesStay(s, t, s.owner[m.path].route);
    OneRowMore(s, t, m.target, Row(true, Forwarding, Hop(m.source, node, m.path, newPath)));
  }

  lemma ExtendKeepsInvariant(s: Network, a: Action)
    requires Invariant(s) && Enabled(s, a) && a.Extend?
    ensures Invariant(Next(s, a))
  {
    var t, m := Next(s, a), a.create;
    assert MessageIsOnRoute(s, m);
    var chosen := SelectNext(a.candidates, m.finalNode, m.source, m.ttl, s.fallback(m.target), a.pick);
    var ttl := NextTtl(m.ttl, OneWay(chosen.averageRtt));
    ExtendedKeepsInvariant(s, t, m, chosen.node, a.newPath, ttl);
  }

  lemma ExtendedKeepsInvariant(s: Network, t: Network, m: Message, node: Node, newPath: PathId, ttl: int)
    requires Invariant(s) && m in s.messages && Extended(s, t, m, node, newPath, ttl)
    ensures Invariant(t)
  {
    ExtendKeepsStructure(s, t, m, node, newPath, ttl);
    assert MessageIsOnRoute(s, m);
    assert RouteIsStored(t, t.routes[s.owner[m.path].route]);
    OtherMessagesStay(s, t, m, Create(m.target, node, m.finalNode, newPath, ttl, m.nonce));
  }

  /** The state after m has reached the final node. */
  ghost predicate Arrived(s: Network, t: Network, m: Message, row: Row) {
    && m.Create? && Located(s, m.path)
    && var r := s.owner[m.path].route;
    && row.detail.Endpoint? && row.detail.previous == m.source && row.detail.routePath == m.path
    && t.tables == s.tables[m.target := Table(s, m.target) + [row]]
    && t.messages == s.messages - {m} + {Backward(KemInfo, m.target, m.source, m.path)}
    && t.routes == s.routes[r := s.routes[r].(endpoint := Some(|Table(s, m.target)|))]
    && t.owner == s.owner
  }

  lemma ArrivedIsStored(s: Network, t: Network, m: Message, row: Row)
    requires Invariant(s) && m in s.messages && m.Create? && m.target == m.finalNode && Arrived(s, t, m, row)
    ensures Grows(s, t) && OwnerIsInverse(t) && RouteIsStored(t, t.routes[s.owner[m.path].route])
  {
    assert MessageIsOnRoute(s, m);
    var route, ended := s.routes[s.owner[m.path].route], t.routes[s.owner[m.path].route];
    forall q | 0 <= q < |s.routes| ensures Grown(s.routes[q], t.routes[q]) {
      assert RouteIsStored(s, s.routes[q]);
    }
    GrowthKeepsRoute(s, t, route);
    forall j | 0 <= j < |ended.ids| ensures StoredAt(t, ended, j) {
      assert StoredAt(t, route, j);
    }
  }

  lemma ArrivedKeepsInvariant(s: Network, t: Network, m: Message, row: Row)
    requires Invariant(s) && m in s.messages && m.Create? && m.target == m.finalNode && Arrived(s, t, m, row)
    ensures Invariant(t)
  {
    assert MessageIsOnRoute(s, m);
    ArrivedIsStored(s, t, m, row);
    OtherRoutesStay(s, t, s.owner[m.path].route);
    OneRowMore(s, t, m.target, row);
    OtherMessagesStay(s, t, m, Backward(KemInfo, m.target, m.source, m.path));
  }

  lemma ArriveKeepsInvariant(s: Network, a: Action)
    requires Invariant(s) && Enabled(s, a) && a.Arrive?
    ensures Invariant(Next(s, a))
  {
    var m := a.create;
    assert MessageIsOnRoute(s, m);
    ArrivedKeepsInvariant(s, Next(s, a), m, Row(true, PendingValidation,
        Endpoint(m.source, m.path, m.nonce, a.kemKey, None)));
  }

  lemma StepKeepsInvariant(s: Network, a: Action)
    requires Invariant(s) && Enabled(s, a)
    ensures Invariant(Next(s, a))
  {
    match a {
      case Start(_, _, _, _, _, _, _, _, delivered) =>
        if delivered {
          StartKeepsInvariant(s, a);
        } else {
          FailedStartKeepsInvariant(s, a);
        }
      case Extend(_, _, _, _) => ExtendKeepsInvariant(s, a);
      case Arrive(_, _) => ArriveKeepsInvariant(s, a);
      case HandleBackward(m, accepted, claim) =>
        var hop := Newest(Table(s, m.target), ByGenerated(m.path));
        if hop.Some? {
          RelayBackKeepsInvariant(s, m, hop.value, Next(s, a));
        } else {
          LocalBackKeepsInvariant(s, m, accepted, claim);
        }
      case HandleOnward(m, accepted, inTime, context) => OnwardKeepsInvariant(s, m, accepted, inTime, context);
      case Published(m, stored) => PublishedKeepsInvariant(s, m, stored);
      case Confirmed(m, visible, finalPath, signature) =>
        ConfirmedKeepsInvariant(s, m, visible, finalPath, signature);
      case Retire(initiator, path) => InvalidatedKeepsInvariant(s, Next(s, a), initiator, InitiatorBy(path));
      case Lose(m) => LossKeepsInvariant(s, m);
    }
  }

  ghost predicate IsRun(states: seq<Network>, actions: seq<Action>) {
    && |states| == |actions| + 1
    && Init(states[0])
    && forall i {:trigger actions[i]} :: 0 <= i < |actions| ==>
        Enabled(states[i], actions[i]) && states[i + 1] == Next(states[i], actions[i])
  }

  lemma {:induction false} RunKeepsInvariant(states: seq<Network>, actions: seq<Action>, i: nat)
    requires IsRun(states, actions) && i < |states|
    ensures Invariant(states[i])
  {
    if i > 0 {
      RunKeepsInvariant(states, actions, i - 1);
      StepKeepsInvariant(states[i - 1], actions[i - 1]);
    }
  }

  ghost predicate Ends(states: seq<Network>, actions: seq<Action>, s: Network) {
    IsRun(states, actions) && states[|actions|] == s
  }

  ghost predicate Reachable(s: Network) {
    exists states, actions :: Ends(states, actions, s)
  }

  lemma ReachableStep(s: Network, a: Action)
    requires Reachable(s) && Enabled(s, a)
    ensures Reachable(Next(s, a))
  {
    var states, actions :| Ends(states, actions, s);
    assert Ends(states + [Next(s, a)], actions + [a], Next(s, a));
  }

  lemma ReachableIsGood(s: Network)
    requires Reachable(s)
    ensures Invariant(s)
  {
    var states, actions :| Ends(states, actions, s);
    RunKeepsInvariant(states, actions, |actions|);
  }
}
