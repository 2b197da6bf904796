/** What the rows of a route say in every run: their status, and the nonce that the route was asked for with. */
module RouteRows {
  import opened Crypto
  import opened RouteTable
  import opened RouteNetwork
  import opened RoutePaths
  import opened Wrappers

  /** A row is invalid exactly if it says so, and each kind of row has its own statuses. */
  predicate StatusFits(row: Row) {
    && (row.valid <==> row.status != Invalid)
    && match row.detail
       case Hop(_, _, _, _) => row.status in {Forwarding, Invalid}
       case Endpoint(_, _, _, _, _) => row.status in {PendingValidation, PendingPingValidation, Active, Invalid}
       case Initiator(_, _, _, _, _, _, _, _, _) =>
         row.status in {PendingKemOffer, PendingFinalValidation, Active, Invalid}
  }

  ghost predicate AllFit(rows: seq<Row>) {
    forall i :: 0 <= i < |rows| ==> StatusFits(rows[i])
  }

  ghost predicate StatusesFit(s: Network) {
    forall n {:trigger Table(s, n)} :: AllFit(Table(s, n))
  }

  lemma UpdatesFit(rows: seq<Row>, q: Query, path: PathId, claim: Claim, context: Context, signature: Signature)
    requires AllFit(rows)
    ensures AllFit(Invalidate(rows, q)) && AllFit(SetStatus(rows, EndpointBy(path), Active))
    ensures AllFit(SetClaim(rows, path, claim)) && AllFit(SetContext(rows, path, context))
    ensures AllFit(SetActive(rows, path, claim.finalPath, signature))
  {
  }

  lemma BackFits(s: Network, m: Message, accepted: bool, claim: Claim)
    requires StatusesFit(s) && m.Backward?
    ensures StatusesFit(HandleBack(s, m, accepted, claim))
  {
    var rows := Table(s, m.target);
    assert AllFit(rows);
    UpdatesFit(rows, HopByEither(m.path), m.path, claim, SOME_CONTEXT, claim.virtualSignature);
    UpdatesFit(rows, InitiatorBy(m.path), m.path, claim, SOME_CONTEXT, claim.virtualSignature);
    forall n ensures AllFit(Table(HandleBack(s, m, accepted, claim), n)) {
      assert AllFit(Table(s, n));
    }
  }

  lemma OnFits(s: Network, m: Message, accepted: bool, inTime: bool, context: Context)
    requires StatusesFit(s) && m.Onward?
    ensures StatusesFit(HandleOn(s, m, accepted, inTime, context))
  {
    var rows := Table(s, m.target);
    assert AllFit(rows);
    UpdatesFit(rows, EndpointBy(m.path), m.path, SOME_CLAIM, context, SOME_CLAIM.virtualSignature);
    forall n ensures AllFit(Table(HandleOn(s, m, accepted, inTime, context), n)) {
      assert AllFit(Table(s, n));
    }
  }

  const SOME_CLAIM := Claim(0, 0, Signed(0, KemOffer(0)), Shared(0, 0))

  const SOME_CONTEXT := Context(Shared(0, 0), 0, 0, Signed(0, KemOffer(0)), Signed(0, KemOffer(0)),
                                Signed(0, KemOffer(0)), 0, 0, 0)

  lemma OtherFits(s: Network, a: Action)
    requires StatusesFit(s) && Enabled(s, a) && !a.HandleBackward? && !a.HandleOnward? && !a.Start?
    ensures StatusesFit(Next(s, a))
  {
    var n := match a
      case Extend(m, _, _, _) => m.target
      case Arrive(m, _) => m.target
      case Published(m, _) => m.target
      case Confirmed(m, _, _, _) => m.target
      case Retire(initiator, _) => initiator
      case _ => 0;
    var rows := Table(s, n);
    assert AllFit(rows);
    if a.Published? {
      UpdatesFit(rows, EndpointBy(a.message.path), 0, SOME_CLAIM, SOME_CONTEXT, SOME_CLAIM.virtualSignature);
    } else if a.Confirmed? {
      UpdatesFit(rows, InitiatorBy(a.message.path), a.message.path, SOME_CLAIM.(finalPath := a.finalPath), SOME_CONTEXT,
          a.signature);
    } else if a.Retire? {
      UpdatesFit(rows, InitiatorBy(a.path), 0, SOME_CLAIM, SOME_CONTEXT, SOME_CLAIM.virtualSignature);
    }
    forall x ensures AllFit(Table(Next(s, a), x)) {
      assert AllFit(Table(s, x));
    }
  }

  lemma StartFits(s: Network, a: Action)
    requires StatusesFit(s) && Enabled(s, a) && a.Start?
    ensures StatusesFit(Next(s, a))
  {
    assert AllFit(Table(s, a.initiator));
    var row := Row(true, PendingKemOffer, Initiator(a.firstHop, a.finalNode, a.path, a.nonce, a.expectedTtl,
        a.virtualNode, None, None, None));
    UpdatesFit(Table(s, a.initiator) + [row], InitiatorBy(a.path), 0, SOME_CLAIM, SOME_CONTEXT,
        SOME_CLAIM.virtualSignature);
    forall x ensures AllFit(Table(Next(s, a), x)) {
      assert AllFit(Table(s, x));
    }
  }

  /** In every run every row of every node has a status of its kind, and is valid unless its status is invalid. */
  lemma {:induction false} RunKeepsStatuses(states: seq<Network>, actions: seq<Action>, i: nat)
    requires IsRun(states, actions) && i < |states|
    ensures StatusesFit(states[i])
  {
    if i > 0 {
      var s, a := states[i - 1], actions[i - 1];
      RunKeepsStatuses(states, actions, i - 1);
      assert Enabled(s, a) && states[i] == Next(s, a);
      match a {
        case HandleBackward(m, accepted, claim) => BackFits(s, m, accepted, claim);
        case HandleOnward(m, accepted, inTime, context) => OnFits(s, m, accepted, inTime, context);
        case Start(_, _, _, _, _, _, _, _, _) => StartFits(s, a);
        case _ => OtherFits(s, a);
      }
    }
  }

  // ---------------------------------------------------------------- the nonce

  /** Both ends of the route have its nonce. */
  ghost predicate NonceAtEnds(s: Network, route: Route) {
    && RouteIsStored(s, route)
    && StoredAt(s, route, 0) && Table(s, route.nodes[0])[route.rows[0]].detail.Initiator?
    && Table(s, route.nodes[0])[route.rows[0]].detail.nonce == route.nonce
    && (route.endpoint.Some? ==> Table(s, route.finalNode)[route.endpoint.value].detail.endpointNonce == route.nonce)
  }

  lemma SameIdentitySameNonce(before: Row, after: Row)
    requires Identity(before) == Identity(after)
    ensures before.detail.Initiator? ==> after.detail.Initiator? && after.detail.nonce == before.detail.nonce
    ensures before.detail.Endpoint? ==>
              after.detail.Endpoint? && after.detail.endpointNonce == before.detail.endpointNonce
  {
  }

  /** The route as it is after the step, with the same beginning; a new endpoint row has the nonce. */
  lemma NonceStays(s: Network, a: Action, before: Route, after: Route)
    requires Enabled(s, a) && NonceAtEnds(s, before) && RouteIsStored(Next(s, a), after)
    requires after.nodes[0] == before.nodes[0] && after.rows[0] == before.rows[0] && after.nonce == before.nonce
    requires after.finalNode == before.finalNode
    requires after.endpoint.Some? ==>
               || after.endpoint == before.endpoint
               || Table(Next(s, a), after.finalNode)[after.endpoint.value].detail.endpointNonce == after.nonce
    ensures NonceAtEnds(Next(s, a), after)
  {
    var t := Next(s, a);
    StepKeepsRow(s, a, before.nodes[0], before.rows[0]);
    SameIdentitySameNonce(Table(s, before.nodes[0])[before.rows[0]], Table(t, before.nodes[0])[before.rows[0]]);
    assert StoredAt(t, after, 0);
    if before.endpoint.Some? && after.endpoint == before.endpoint {
      StepKeepsRow(s, a, before.finalNode, before.endpoint.value);
      SameIdentitySameNonce(Table(s, before.finalNode)[before.endpoint.value],
          Table(t, before.finalNode)[before.endpoint.value]);
    }
  }

  /** What a step does to a route that was there. */
  ghost predicate GoesOn(s: Network, a: Action, before: Route, after: Route) {
    && Shaped(before) && before.nodes <= after.nodes && before.rows <= after.rows
    && after.nonce == before.nonce && after.finalNode == before.finalNode
    && (after.endpoint != before.endpoint ==>
          && before.endpoint.None? && a.Arrive? && a.create.Create? && a.create.nonce == before.nonce
          && a.create.target == before.finalNode && after.endpoint == Some(|Table(s, before.finalNode)|))
  }

  lemma ReachingGoesOn(s: Network, a: Action, r: nat)
    requires Invariant(s) && Enabled(s, a) && r < |s.routes| && Shaped(s.routes[r]) && (a.Extend? || a.Arrive?)
    ensures r < |Next(s, a).routes| && GoesOn(s, a, s.routes[r], Next(s, a).routes[r])
  {
    assert MessageIsOnRoute(s, a.create);
  }

  lemma OtherGoesOn(s: Network, a: Action, r: nat)
    requires Enabled(s, a) && r < |s.routes| && Shaped(s.routes[r]) && !a.Extend? && !a.Arrive?
    ensures r < |Next(s, a).routes| && GoesOn(s, a, s.routes[r], Next(s, a).routes[r])
  {
  }

  lemma RouteAfter(s: Network, a: Action, r: nat)
    requires Invariant(s) && Enabled(s, a) && r < |s.routes|
    ensures r < |Next(s, a).routes| && GoesOn(s, a, s.routes[r], Next(s, a).routes[r])
  {
    assert RouteIsStored(s, s.routes[r]);
    if a.Extend? || a.Arrive? {
      ReachingGoesOn(s, a, r);
    } else {
      OtherGoesOn(s, a, r);
    }
  }

  lemma ArrivedRowHasNonce(s: Network, a: Action)
    requires Enabled(s, a) && a.Arrive?
    ensures var rows, n := Table(Next(s, a), a.create.target), |Table(s, a.create.target)|;
            n < |rows| && rows[n].detail.Endpoint? && rows[n].detail.endpointNonce == a.create.nonce
  {
  }

  lemma NewRouteHasNonce(s: Network, a: Action, r: nat)
    requires Enabled(s, a) && |s.routes| <= r < |Next(s, a).routes| && RouteIsStored(Next(s, a), Next(s, a).routes[r])
    ensures NonceAtEnds(Next(s, a), Next(s, a).routes[r])
  {
    assert StoredAt(Next(s, a), Next(s, a).routes[r], 0);
  }

  ghost predicate NoncesAtEnds(s: Network) {
    forall r {:trigger NonceAtEnds(s, s.routes[r])} :: 0 <= r < |s.routes| ==> NonceAtEnds(s, s.routes[r])
  }

  lemma StepKeepsNonces(s: Network, a: Action)
    requires Invariant(s) && Enabled(s, a) && NoncesAtEnds(s)
    ensures NoncesAtEnds(Next(s, a))
  {
    var t := Next(s, a);
    StepKeepsInvariant(s, a);
    forall r | 0 <= r < |t.routes| ensures NonceAtEnds(t, t.routes[r]) {
      assert RouteIsStored(t, t.routes[r]);
      if r < |s.routes| {
        assert NonceAtEnds(s, s.routes[r]);
        RouteAfter(s, a, r);
        if a.Arrive? {
          ArrivedRowHasNonce(s, a);
        }
        NonceStays(s, a, s.routes[r], t.routes[r]);
      } else {
        NewRouteHasNonce(s, a, r);
      }
    }
  }

  /** In every run both ends of a route have the nonce that it was asked for with. */
  lemma {:induction false} EndsShareTheNonce(states: seq<Network>, actions: seq<Action>, i: nat)
    requires IsRun(states, actions) && i < |states|
    ensures NoncesAtEnds(states[i])
  {
    if i > 0 {
      EndsShareTheNonce(states, actions, i - 1);
      RunKeepsInvariant(states, actions, i - 1);
      StepKeepsNonces(states[i - 1], actions[i - 1]);
    }
  }

  // ---------------------------------------------------------------- what is written first, and what is not written

  /** A message for this node that does not pass its checks changes nothing, not even what is in flight. */
  lemma RefusedChangesNothing(s: Network, a: Action)
    requires Enabled(s, a)
    requires
      || (a.HandleBackward? && !a.accepted && (a.message.back == KemInfo || a.message.back == RouteOk)
          && Newest(Table(s, a.message.target), ByGenerated(a.message.path)).None?)
      || (a.HandleOnward? && !a.accepted && Newest(Table(s, a.message.target), ByReceived(a.message.path)).None?)
    ensures Next(s, a) == s
  {
  }

  /** A message that is lost is gone, and nothing else is. */
  lemma LostIsGone(s: Network, m: Message, other: Message)
    ensures other in Next(s, Lose(m)).messages <==> other in s.messages && other != m
    ensures Next(s, Lose(m)) == s.(messages := Next(s, Lose(m)).messages)
  {
  }

  /** The one row that a step adds at a node, if it adds one. */
  ghost predicate Adds(s: Network, t: Network, n: Node, row: Row) {
    Table(t, n) == Table(s, n) + [row] && forall x :: x != n ==> Table(t, x) == Table(s, x)
  }

  /** What the ends know when they make their rows is all in them; a start that is not delivered leaves it invalid. */
  lemma EndsBeginWithWhatTheyKnow(s: Network, a: Action)
    requires Enabled(s, a) && (a.Start? || a.Arrive?)
    ensures a.Start? ==>
              var row := Row(true, PendingKemOffer, Initiator(a.firstHop, a.finalNode, a.path, a.nonce, a.expectedTtl,
                  a.virtualNode, None, None, None));
              Adds(s, Next(s, a), a.initiator, if a.delivered then row else Invalidated(row))
    ensures a.Arrive? ==>
              var m := a.create;
              Adds(s, Next(s, a), m.target,
                   Row(true, PendingValidation, Endpoint(m.source, m.path, m.nonce, a.kemKey, None)))
  {
    if a.Start? && !a.delivered {
      var row := Row(true, PendingKemOffer, Initiator(a.firstHop, a.finalNode, a.path, a.nonce, a.expectedTtl,
          a.virtualNode, None, None, None));
      assert Newest(Table(s, a.initiator) + [row], InitiatorBy(a.path)) == Some(|Table(s, a.initiator)|);
    }
  }
}
