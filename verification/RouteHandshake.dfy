/**
 * That the handshake can succeed: between honest nodes, with nothing lost and an answer in time, the route becomes
 * active.
 */
module RouteHandshake {
  import opened Crypto
  import opened RouteTable
  import opened RouteAgreement
  import opened Wrappers

  /** What the two ends draw and what the initiator wants. */
  datatype Plan = Plan(
    n: Node, f: Node, firstHop: Node, previous: Node, path: PathId, routePath: PathId, nonce: nat, ttl: int,
    virtualNode: Node, kemKey: nat, seed: nat, finalPath: PathId, pingId: nat, sentAt: int, answeredAt: int)

  function SecretOf(p: Plan): Secret { Shared(p.kemKey, p.seed) }

  function Virtual(p: Plan): Signature { Signed(p.virtualNode, FinalPath(p.finalPath, p.f)) }

  function ContextOf(p: Plan): Context {
    Context(SecretOf(p), p.finalPath, p.virtualNode, Virtual(p),
        Signed(p.f, EntryPoint(p.virtualNode, p.finalPath, Virtual(p))),
            Signed(p.f, PublicRoute(p.f, p.nonce)), p.ttl, p.pingId, p.sentAt)
  }

  function ClaimOf(p: Plan): Claim { Claim(p.virtualNode, p.finalPath, Virtual(p), SecretOf(p)) }

  function Asked(p: Plan): Row {
    Row(true, PendingKemOffer, Initiator(p.firstHop, p.f, p.path, p.nonce, Some(p.ttl), Some(p.virtualNode), None,
        None, None))
  }

  function Committed(p: Plan, status: Status): Row {
    Row(true, status, Claimed(Asked(p).detail, ClaimOf(p)))
  }

  function Offered(p: Plan, status: Status, context: Option<Context>): Row {
    Row(true, status, Endpoint(p.previous, p.routePath, p.nonce, p.kemKey, context))
  }

  function Box(p: Plan): Sealed {
    Sealed(SecretOf(p), ForValidate, ValidateBody(p.virtualNode, p.finalPath, p.f, p.ttl, Virtual(p)))
  }

  function Actions(p: Plan): seq<Action> {
    [Start(p.n, p.firstHop, p.f, p.path, p.nonce, Some(p.ttl), Some(p.virtualNode)),
     ReceiveCreate(p.f, p.previous, p.f, p.routePath, p.nonce, p.kemKey, 0, 0),
     ReceiveKemInfo(p.n, p.path, p.kemKey, Signed(p.f, KemOffer(p.kemKey)), 0, p.finalPath, p.seed),
     ReceiveValidate(p.f, p.routePath, Encapsulated(p.kemKey, p.seed), Box(p), p.pingId, p.sentAt),
     ReceivePong(p.f, p.routePath, p.pingId, p.answeredAt),
     PublicationEnds(Publication(p.f, p.routePath, ContextOf(p)), true),
     ReceiveOk(p.n, p.path, OkPayload(ContextOf(p)), Signed(p.f, PublicRoute(p.f, p.nonce))),
     ConfirmationEnds(Confirmation(p.n, p.path, p.f, OkPayload(ContextOf(p)).body), true)]
  }

  /** One row at either end, and what the two have made so far. */
  ghost predicate Ends(s: World, p: Plan, own: Row, other: Row) {
    && p.n in s.honest && p.f in s.honest && p.n != p.f && p.ttl > 0
    && p.answeredAt - p.sentAt <= p.ttl + s.tolerance
    && Table(s, p.n) == [own] && Table(s, p.f) == [other]
  }

  ghost predicate Does(s: World, a: Action, t: World) {
    Enabled(s, a) && t == Next(s, a)
  }

  lemma Begins(s: World, p: Plan) returns (t: World, u: World)
    requires Init(s) && p.n in s.honest && p.f in s.honest && p.n != p.f && p.ttl > 0
    requires p.answeredAt - p.sentAt <= p.ttl + s.tolerance
    ensures Does(s, Actions(p)[0], t) && Does(t, Actions(p)[1], u)
    ensures Ends(u, p, Asked(p), Offered(p, PendingValidation, None))
    ensures u.seeds == {} && Signed(p.f, KemOffer(p.kemKey)) in u.signatures
  {
    t := Next(s, Actions(p)[0]);
    assert Table(t, p.n) == [Asked(p)];
    u := Next(t, Actions(p)[1]);
  }

  lemma Commits(s: World, p: Plan) returns (t: World)
    requires Ends(s, p, Asked(p), Offered(p, PendingValidation, None)) && s.seeds == {}
        && Signed(p.f, KemOffer(p.kemKey)) in s.signatures
    ensures Does(s, Actions(p)[2], t)
    ensures Ends(t, p, Committed(p, PendingFinalValidation), Offered(p, PendingValidation, None)) && Box(p) in t.sealed
  {
    t := Next(s, Actions(p)[2]);
    assert Newest(Table(s, p.n), InitiatorBy(p.path)) == Some(0);
    assert SetClaim(Table(s, p.n), p.path, ClaimOf(p)) == [Committed(p, PendingFinalValidation)];
  }

  lemma Pings(s: World, p: Plan) returns (t: World)
    requires Ends(s, p, Committed(p, PendingFinalValidation), Offered(p, PendingValidation, None)) && Box(p) in s.sealed
    ensures Does(s, Actions(p)[3], t)
    ensures Ends(t, p, Committed(p, PendingFinalValidation), Offered(p, PendingPingValidation, Some(ContextOf(p))))
    ensures Signed(p.f, PublicRoute(p.f, p.nonce)) in t.signatures
  {
    t := Next(s, Actions(p)[3]);
    assert Newest(Table(s, p.f), EndpointBy(p.routePath)) == Some(0);
    assert SetContext(Table(s, p.f), p.routePath, ContextOf(p)) ==
        [Offered(p, PendingPingValidation, Some(ContextOf(p)))];
  }

  lemma Publishes(s: World, p: Plan) returns (t: World, u: World)
    requires Ends(s, p, Committed(p, PendingFinalValidation), Offered(p, PendingPingValidation, Some(ContextOf(p))))
    requires Signed(p.f, PublicRoute(p.f, p.nonce)) in s.signatures
    ensures Does(s, Actions(p)[4], t) && Does(t, Actions(p)[5], u)
    ensures Ends(u, p, Committed(p, PendingFinalValidation), Offered(p, Active, Some(ContextOf(p))))
    ensures Signed(p.f, PublicRoute(p.f, p.nonce)) in u.signatures && OkPayload(ContextOf(p)) in u.sealed
  {
    assert Newest(Table(s, p.f), EndpointBy(p.routePath)) == Some(0);
    t := Next(s, Actions(p)[4]);
    assert SetStatus(Table(s, p.f), EndpointBy(p.routePath), Active) == [Offered(p, Active, Some(ContextOf(p)))];
    u := Next(t, Actions(p)[5]);
  }

  lemma Activates(s: World, p: Plan) returns (t: World, u: World)
    requires Ends(s, p, Committed(p, PendingFinalValidation), Offered(p, Active, Some(ContextOf(p))))
    requires Signed(p.f, PublicRoute(p.f, p.nonce)) in s.signatures && OkPayload(ContextOf(p)) in s.sealed
    ensures Does(s, Actions(p)[6], t) && Does(t, Actions(p)[7], u)
    ensures Ends(u, p, Committed(p, Active), Offered(p, Active, Some(ContextOf(p))))
  {
    assert Newest(Table(s, p.n), InitiatorBy(p.path)) == Some(0);
    t := Next(s, Actions(p)[6]);
    u := Next(t, Actions(p)[7]);
    assert SetActive(Table(s, p.n), p.path, p.finalPath, Virtual(p)) == [Committed(p, Active)];
  }

  /** Steps in a row, from wherever they begin. */
  ghost predicate Chain(states: seq<World>, actions: seq<Action>) {
    && |states| == |actions| + 1
    && forall i {:trigger actions[i]} :: 0 <= i < |actions| ==> Does(states[i], actions[i], states[i + 1])
  }

  lemma Joined(xs: seq<World>, one: seq<Action>, ys: seq<World>, other: seq<Action>)
    requires Chain(xs, one) && Chain(ys, other) && xs[|one|] == ys[0]
    ensures Chain(xs + ys[1..], one + other)
  {
    var zs, all := xs + ys[1..], one + other;
    forall i | 0 <= i < |all| ensures Does(zs[i], all[i], zs[i + 1]) {
      if i < |one| {
        assert all[i] == one[i];
      } else {
        assert all[i] == other[i - |one|] && zs[i] == ys[i - |one|];
      }
    }
  }

  lemma ChainIsRun(states: seq<World>, actions: seq<Action>)
    requires Chain(states, actions) && Init(states[0])
    ensures IsRun(states, actions)
  {
    forall i | 0 <= i < |actions| ensures Enabled(states[i], actions[i])
        && states[i + 1] == Next(states[i], actions[i]) {
      assert Does(states[i], actions[i], states[i + 1]);
    }
  }

  /** The final node answers, the initiator commits itself and the final node sends its ping. */
  lemma FirstHalf(s: World, p: Plan) returns (states: seq<World>)
    requires Init(s) && p.n in s.honest && p.f in s.honest && p.n != p.f && p.ttl > 0
    requires p.answeredAt - p.sentAt <= p.ttl + s.tolerance
    ensures Chain(states, Actions(p)[..4]) && states[0] == s
    ensures Ends(states[4], p, Committed(p, PendingFinalValidation),
        Offered(p, PendingPingValidation, Some(ContextOf(p))))
    ensures Signed(p.f, PublicRoute(p.f, p.nonce)) in states[4].signatures
  {
    var a, b := Begins(s, p);
    var c := Commits(b, p);
    var d := Pings(c, p);
    states := [s, a, b, c, d];
    var actions := Actions(p)[..4];
    assert Does(states[0], actions[0], states[1]) && Does(states[1], actions[1], states[2]);
    assert Does(states[2], actions[2], states[3]) && Does(states[3], actions[3], states[4]);
  }

  /** The pong is accepted, the route published, the OK issued and the initiator's row activated. */
  lemma SecondHalf(s: World, p: Plan) returns (states: seq<World>)
    requires Ends(s, p, Committed(p, PendingFinalValidation), Offered(p, PendingPingValidation, Some(ContextOf(p))))
    requires Signed(p.f, PublicRoute(p.f, p.nonce)) in s.signatures
    ensures Chain(states, Actions(p)[4..]) && states[0] == s
    ensures Table(states[4], p.n) == [Committed(p, Active)]
  {
    var a, b := Publishes(s, p);
    var c, d := Activates(b, p);
    states := [s, a, b, c, d];
    var actions := Actions(p)[4..];
    assert Does(states[0], actions[0], states[1]) && Does(states[1], actions[1], states[2]);
    assert Does(states[2], actions[2], states[3]) && Does(states[3], actions[3], states[4]);
  }

  /** From the beginning, eight steps lead to an active row that carries what the initiator chose. */
  lemma HandshakeSucceeds(s: World, p: Plan) returns (states: seq<World>)
    requires Init(s) && p.n in s.honest && p.f in s.honest && p.n != p.f && p.ttl > 0
    requires p.answeredAt - p.sentAt <= p.ttl + s.tolerance
    ensures states != [] && states[0] == s && IsRun(states, Actions(p))
    ensures Table(states[|states| - 1], p.n) == [Committed(p, Active)]
  {
    var xs := FirstHalf(s, p);
    var ys := SecondHalf(xs[4], p);
    Joined(xs, Actions(p)[..4], ys, Actions(p)[4..]);
    states := xs + ys[1..];
    assert Actions(p)[..4] + Actions(p)[4..] == Actions(p);
    ChainIsRun(states, Actions(p));
  }

  // ---------------------------------------------------------------- without an honest final node

  /** The key offered is one that no honest node drew, so whoever offers it can seal under the secret. */
  function ShortActions(p: Plan): seq<Action> {
    [Start(p.n, p.firstHop, p.f, p.path, p.nonce, Some(p.ttl), Some(p.virtualNode)),
     ReceiveKemInfo(p.n, p.path, p.kemKey, Signed(p.f, KemOffer(p.kemKey)), 0, p.finalPath, p.seed),
     ReceiveOk(p.n, p.path, OkPayload(ContextOf(p)), Signed(p.f, PublicRoute(p.f, p.nonce))),
     ConfirmationEnds(Confirmation(p.n, p.path, p.f, OkPayload(ContextOf(p)).body), true)]
  }

  ghost predicate Alone(s: World, p: Plan, own: Row) {
    && p.n in s.honest && p.f !in s.honest && p.ttl > 0 && s.kemOwner == map[] && s.trace == []
    && Table(s, p.n) == [own]
  }

  lemma CommitsAlone(s: World, p: Plan) returns (t: World, u: World)
    requires Init(s) && p.n in s.honest && p.f !in s.honest && p.ttl > 0
    ensures Does(s, ShortActions(p)[0], t) && Does(t, ShortActions(p)[1], u)
    ensures Alone(u, p, Committed(p, PendingFinalValidation))
  {
    t := Next(s, ShortActions(p)[0]);
    assert Table(t, p.n) == [Asked(p)];
    u := Next(t, ShortActions(p)[1]);
    assert Newest(Table(t, p.n), InitiatorBy(p.path)) == Some(0);
    assert SetClaim(Table(t, p.n), p.path, ClaimOf(p)) == [Committed(p, PendingFinalValidation)];
  }

  lemma ActivatesAlone(s: World, p: Plan) returns (t: World, u: World)
    requires Alone(s, p, Committed(p, PendingFinalValidation))
    ensures Does(s, ShortActions(p)[2], t) && Does(t, ShortActions(p)[3], u)
    ensures Table(u, p.n) == [Committed(p, Active)] && |u.trace| == 1 && u.trace[0].Activated?
  {
    assert Newest(Table(s, p.n), InitiatorBy(p.path)) == Some(0);
    t := Next(s, ShortActions(p)[2]);
    u := Next(t, ShortActions(p)[3]);
    assert SetActive(Table(s, p.n), p.path, p.finalPath, Virtual(p)) == [Committed(p, Active)];
  }

  /**
   * Agreement needs the final node to be honest: with any other one, some run activates the route without a ping, a
   * pong or a publication.
   */
  lemma DishonestFinalNodeNeedsNoHandshake(s: World, p: Plan) returns (states: seq<World>)
    requires Init(s) && p.n in s.honest && p.f !in s.honest && p.ttl > 0
    ensures |states| == 5 && states[0] == s && IsRun(states, ShortActions(p))
    ensures Table(states[4], p.n) == [Committed(p, Active)]
    ensures forall i :: 0 <= i < |states[4].trace| ==> states[4].trace[i].Activated?
  {
    var a, b := CommitsAlone(s, p);
    var c, d := ActivatesAlone(b, p);
    states := [s, a, b, c, d];
    var actions := ShortActions(p);
    assert Does(states[0], actions[0], states[1]) && Does(states[1], actions[1], states[2]);
    assert Does(states[2], actions[2], states[3]) && Does(states[3], actions[3], states[4]);
    ChainIsRun(states, actions);
  }
}
