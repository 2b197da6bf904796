/** Every live route can succeed too: after a pong in time, a stored publication and a visible entry it is active. */
module RouteSucceeding {
  import opened Crypto
  import opened RouteTable
  import opened RouteNetwork
  import opened RoutePaths
  import opened RouteWave
  import opened RouteFailing
  import opened Wrappers

  /** A pong in time: the final node is active and publishes. */
  lemma EndpointAccepts(s: Network, r: nat, context: Context) returns (t: Network)
    requires Reachable(s) && Live(s, r) && OnAt(s.routes[r], Pong, |s.routes[r].ids| - 1) in s.messages
    ensures Reachable(t) && Live(t, r) && t.routes == s.routes
    ensures var route, last := s.routes[r], |s.routes[r].ids| - 1;
            Publishing(route.finalNode, route.ids[last], route.nodes[last]) in t.messages
    ensures OwnRow(t, s.routes[r]) == OwnRow(s, s.routes[r])
    ensures EndRow(t, s.routes[r]) == EndRow(s, s.routes[r]).(status := Active)
  {
    var route, last := s.routes[r], |s.routes[r].ids| - 1;
    var a := HandleOnward(OnAt(route, Pong, last), true, true, context);
    ReachableIsGood(s);
    EndpointIsFound(s, r);
    ReachableStep(s, a);
    t := Next(s, a);
    forall n ensures StillValid(s, t, n) {
    }
    StillLive(s, t, r);
    OneRowChanged(s, t, route.finalNode, route.endpoint.value, EndRow(t, route));
    EndsDiffer(s, route);
    assert StoredAt(s, route, 0) && RowIsKept(s, t, route.nodes[0], route.rows[0]);
  }

  /** The publication is stored: the final node says so to the last hop. */
  lemma PublicationSucceeds(s: Network, r: nat) returns (t: Network)
    requires Reachable(s) && Live(s, r)
    requires var route, last := s.routes[r], |s.routes[r].ids| - 1;
             Publishing(route.finalNode, route.ids[last], route.nodes[last]) in s.messages
    ensures Reachable(t) && Live(t, r) && Busier(s, t)
    ensures BackAt(s.routes[r], RouteOk, |s.routes[r].ids| - 1) in t.messages
  {
    var route, last := s.routes[r], |s.routes[r].ids| - 1;
    var a := Published(Publishing(route.finalNode, route.ids[last], route.nodes[last]), true);
    ReachableStep(s, a);
    t := Next(s, a);
    BusierIsLive(s, t, r);
  }

  /** The publication is not stored: the final node gives up the route as after a late pong. */
  lemma PublicationFails(s: Network, r: nat) returns (t: Network)
    requires Reachable(s) && Live(s, r)
    requires var route, last := s.routes[r], |s.routes[r].ids| - 1;
             Publishing(route.finalNode, route.ids[last], route.nodes[last]) in s.messages
    ensures Reachable(t) && t.routes == s.routes && Failing(t, r, |s.routes[r].ids| - 1)
    ensures !EndpointIsValid(t, s.routes[r])
  {
    var route, last := s.routes[r], |s.routes[r].ids| - 1;
    var a := Published(Publishing(route.finalNode, route.ids[last], route.nodes[last]), false);
    ReachableIsGood(s);
    EndpointIsFound(s, r);
    ReachableStep(s, a);
    t := Next(s, a);
    forall k | 0 <= k <= last ensures Alive(t, route, k) {
      assert Alive(s, route, k);
    }
  }

  /** The initiator accepts the OK and looks the entry up. */
  lemma InitiatorLooksUp(s: Network, r: nat) returns (t: Network)
    requires Reachable(s) && Live(s, r) && BackAt(s.routes[r], RouteOk, 0) in s.messages
    ensures Reachable(t) && Live(t, r) && Busier(s, t)
    ensures Confirming(s.routes[r].nodes[0], s.routes[r].ids[0]) in t.messages
  {
    var a := HandleBackward(BackAt(s.routes[r], RouteOk, 0), true, NO_CLAIM);
    ReachableIsGood(s);
    InitiatorIsFound(s, r);
    ReachableStep(s, a);
    t := Next(s, a);
    BusierIsLive(s, t, r);
  }

  /** The entry is visible: the initiator's row is active, with what was confirmed. */
  lemma InitiatorActivates(s: Network, r: nat, finalPath: PathId, signature: Signature) returns (t: Network)
    requires Reachable(s) && Live(s, r) && Confirming(s.routes[r].nodes[0], s.routes[r].ids[0]) in s.messages
    ensures Reachable(t) && Live(t, r) && t.routes == s.routes && OwnRow(s, s.routes[r]).detail.Initiator?
    ensures OwnRow(t, s.routes[r]) ==
            Row(true, Active, OwnRow(s, s.routes[r]).detail.(finalPath := Some(finalPath),
                                                             virtualSignature := Some(signature)))
    ensures EndRow(t, s.routes[r]) == EndRow(s, s.routes[r])
  {
    var a := Confirmed(Confirming(s.routes[r].nodes[0], s.routes[r].ids[0]), true, finalPath, signature);
    ReachableIsGood(s);
    InitiatorIsFound(s, r);
    ReachableStep(s, a);
    t := Next(s, a);
    forall n ensures StillValid(s, t, n) {
    }
    StillLive(s, t, r);
  }

  /** The entry is not visible: the initiator gives up its row, and nothing else changes. */
  lemma InitiatorGivesUp(s: Network, r: nat, finalPath: PathId, signature: Signature) returns (t: Network)
    requires Reachable(s) && Live(s, r) && Confirming(s.routes[r].nodes[0], s.routes[r].ids[0]) in s.messages
    ensures Reachable(t) && t.routes == s.routes && t.messages == s.messages
    ensures !Alive(t, s.routes[r], 0)
    ensures OnlyRow(s, t, s.routes[r].nodes[0], s.routes[r].rows[0])
  {
    var a := Confirmed(Confirming(s.routes[r].nodes[0], s.routes[r].ids[0]), false, finalPath, signature);
    ReachableIsGood(s);
    InitiatorIsFound(s, r);
    ReachableStep(s, a);
    t := Next(s, a);
    OneRowChanged(s, t, s.routes[r].nodes[0], s.routes[r].rows[0], Invalidated(OwnRow(s, s.routes[r])));
  }

  /**
   * From every reachable state in which a live route, of whatever length, has its key offer under way: some
   * continuation makes both ends active, the initiator's row with its claim and what was confirmed, the final node's
   * with the context of its ping. Every row is valid, and the two translations meet end to end.
   */
  lemma LiveRouteCanSucceed(s: Network, r: nat, j: nat, claim: Claim, context: Context, finalPath: PathId,
                            signature: Signature) returns (t: Network)
    requires Reachable(s) && Live(s, r) && j < |s.routes[r].ids| && BackAt(s.routes[r], KemInfo, j) in s.messages
    ensures Reachable(t) && Live(t, r) && t.routes == s.routes
    ensures OwnRow(s, s.routes[r]).detail.Initiator? && EndRow(s, s.routes[r]).detail.Endpoint?
    ensures OwnRow(t, s.routes[r]) ==
            Row(true, Active, Claimed(OwnRow(s, s.routes[r]).detail,
                                      Claim(claim.virtualNode, finalPath, signature, claim.secret)))
    ensures EndRow(t, s.routes[r]) == Row(true, Active, EndRow(s, s.routes[r]).detail.(context := Some(context)))
    ensures forall steps {:trigger TranslationsMeetAt(t, s.routes[r], steps)} :: steps >= |s.routes[r].ids| - 1 ==>
              TranslationsMeetAt(t, s.routes[r], steps)
  {
    var s1 := HandshakeGoesOn(s, r, j, claim, context);
    var s2 := EndpointAccepts(s1, r, context);
    var s3 := PublicationSucceeds(s2, r);
    var s4 := CarryBack(s3, r, RouteOk, |s.routes[r].ids| - 1);
    var s5 := InitiatorLooksUp(s4, r);
    t := InitiatorActivates(s5, r, finalPath, signature);
    LiveTranslates(t, r);
  }

  lemma LiveTranslates(s: Network, r: nat)
    requires Reachable(s) && Live(s, r)
    ensures forall steps {:trigger TranslationsMeetAt(s, s.routes[r], steps)} :: steps >= |s.routes[r].ids| - 1 ==>
              TranslationsMeetAt(s, s.routes[r], steps)
  {
    ReachableIsGood(s);
    forall steps: nat | steps >= |s.routes[r].ids| - 1 ensures TranslationsMeetAt(s, s.routes[r], steps) {
      assert forall k :: 1 <= k < |s.routes[r].ids| ==> Alive(s, s.routes[r], k);
      TranslationsMeetIn(s, r, steps);
    }
  }
}
