/**
 * The handshake of a route under an active attacker. Honest nodes run the handlers; whoever is not honest, and the
 * network itself, is the attacker: any message may be delivered to any honest node under any path id, at any
 * time and any number of times, as long as the sealed payloads and the signatures of honest nodes in it have
 * not been made up. Handlers that wait for the DHT are split at the wait.
 */
module RouteAgreement {
  import opened Crypto
  import opened RouteTable
  import opened Wrappers

  datatype Event =
    | PingSent(node: Node, path: PathId, context: Context)
    | PongAccepted(node: Node, path: PathId, context: Context, pongId: nat, now: int)
    | Stored(node: Node, path: PathId, context: Context)
    | OkIssued(node: Node, path: PathId, context: Context)
    | Activated(node: Node, path: PathId, finalNode: Node, body: Body)

  datatype Publication = Publication(node: Node, path: PathId, context: Context)

  datatype Confirmation = Confirmation(node: Node, path: PathId, finalNode: Node, body: Body)

  /**
   * `kemOwner`, `seeds`, `paths`: what honest nodes have drawn; `sealed`, `signatures`: what they have made;
   * `tolerance`: the configured error on the round trip; `trace`: what happened, in order.
   */
  datatype World = World(
    honest: set<Node>, tolerance: int, tables: map<Node, seq<Row>>,
    kemOwner: map<nat, Node>, seeds: set<nat>, paths: set<PathId>,
    sealed: set<Sealed>, signatures: set<Signature>,
    publishing: set<Publication>, confirming: set<Confirmation>, trace: seq<Event>)

  function Table(s: World, n: Node): seq<Row> {
    if n in s.tables then s.tables[n] else []
  }

  function WithTable(s: World, n: Node, rows: seq<Row>): World {
    s.(tables := s.tables[n := rows])
  }

  // ---------------------------------------------------------------- the attacker

  /** A secret is out of the attacker's reach when an honest node drew the key and an honest node drew the seed. */
  predicate Protected(s: World, secret: Secret) {
    secret.Shared? && secret.kemKey in s.kemOwner && secret.seed in s.seeds
  }

  predicate CanPresent(s: World, x: Sealed) {
    x in s.sealed || !Protected(s, x.secret)
  }

  predicate CanShow(s: World, x: Signature) {
    x in s.signatures || x.signer !in s.honest
  }

  // ---------------------------------------------------------------- handlers of honest nodes

  datatype Action =
    | Start(node: Node, firstHop: Node, finalNode: Node, path: PathId, nonce: nat, expectedTtl: Option<int>,
        virtualNode: Option<Node>)
    | ReceiveCreate(node: Node, source: Node, finalNode: Node, path: PathId, nonce: nat, kemKey: nat, next: Node,
        newPath: PathId)
    | ReceiveKemInfo(node: Node, path: PathId, kemKey: nat, offer: Signature, defaultNode: Node, finalPath: PathId,
        seed: nat)
    | ReceiveValidate(node: Node, path: PathId, ciphertext: Ciphertext, box: Sealed, pingId: nat, now: int)
    | ReceivePong(node: Node, path: PathId, pongId: nat, now: int)
    | PublicationEnds(publication: Publication, stored: bool)
    | ReceiveOk(node: Node, path: PathId, box: Sealed, public: Signature)
    | ConfirmationEnds(confirmation: Confirmation, visible: bool)
    | ReceiveFail(node: Node, path: PathId)

  /** Only fresh draws, only presentable terms, only honest nodes. */
  predicate Enabled(s: World, a: Action) {
    match a
    case Start(n, _, _, path, _, _, _) => n in s.honest && path !in s.paths
    case ReceiveCreate(n, _, _, _, _, kemKey, _, _) => n in s.honest && kemKey !in s.kemOwner
    case ReceiveKemInfo(n, _, _, offer, _, _, seed) => n in s.honest && CanShow(s, offer) && seed !in s.seeds
    case ReceiveValidate(n, _, _, box, _, _) => n in s.honest && CanPresent(s, box)
    case ReceivePong(n, _, _, _) => n in s.honest
    case PublicationEnds(publication, _) => publication in s.publishing
    case ReceiveOk(n, _, box, public) => n in s.honest && CanPresent(s, box) && CanShow(s, public)
    case ConfirmationEnds(confirmation, _) => confirmation in s.confirming
    case ReceiveFail(n, _) => n in s.honest
  }

  function HandleCreate(s: World, n: Node, source: Node, finalNode: Node, path: PathId, nonce: nat, kemKey: nat,
                        next: Node, newPath: PathId): World {
    if n == finalNode then
      WithTable(s, n, Table(s, n) + [Row(true, PendingValidation, Endpoint(source, path, nonce, kemKey, None))])
        .(kemOwner := s.kemOwner[kemKey := n], signatures := s.signatures + {Signed(n, KemOffer(kemKey))})
    else
      WithTable(s, n, Table(s, n) + [Row(true, Forwarding, Hop(source, next, path, newPath))])
  }

  function HandleKemInfo(s: World, n: Node, path: PathId, kemKey: nat, offer: Signature, defaultNode: Node,
                         finalPath: PathId, seed: nat): World {
    var rows := Table(s, n);
    var own := Newest(rows, InitiatorBy(path));
    if Newest(rows, ByGenerated(path)).Some? || own.None? then s
    else
      var d := rows[own.value].detail;
      if !Verifies(offer, d.finalNode, KemOffer(kemKey)) || d.expectedTtl.None? || d.expectedTtl.value <= 0 then s
      else
        var virtualNode := if d.virtualNode.Some? then d.virtualNode.value else defaultNode;
        var signature := Signed(virtualNode, FinalPath(finalPath, d.finalNode));
        var secret := Encapsulate(kemKey, seed).1;
        var body := ValidateBody(virtualNode, finalPath, d.finalNode, d.expectedTtl.value, signature);
        WithTable(s, n, SetClaim(rows, path, Claim(virtualNode, finalPath, signature, secret)))
          .(seeds := s.seeds + {seed}, sealed := s.sealed + {Sealed(secret, ForValidate, body)},
            signatures := s.signatures + {signature})
  }

  function HandleValidate(s: World, n: Node, path: PathId, ciphertext: Ciphertext, box: Sealed, pingId: nat, now: int)
    : World
  {
    var rows := Table(s, n);
    var own := Newest(rows, EndpointBy(path));
    if Newest(rows, ByReceived(path)).Some? || own.None? then s
    else
      var d := rows[own.value].detail;
      var secret := Decapsulate(ciphertext, d.kemKey);
      var plain := Open(box, secret, ForValidate);
      if plain.None? || !plain.value.ValidateBody? then s
      else
        var b := plain.value;
        if b.finalNode != n || b.expectedTtl <= 0
            || !Verifies(b.virtualSignature, b.virtualNode, FinalPath(b.finalPath, b.finalNode)) then s
        else
          var acceptance := Signed(n, EntryPoint(b.virtualNode, b.finalPath, b.virtualSignature));
          var public := Signed(n, PublicRoute(n, d.endpointNonce));
          var context := Context(secret, b.finalPath, b.virtualNode, b.virtualSignature, acceptance, public,
              b.expectedTtl, pingId, now);
          WithTable(s, n, SetContext(rows, path, context))
            .(signatures := s.signatures + {acceptance, public}, trace := s.trace + [PingSent(n, path, context)])
  }

  predicate PongIsGood(context: Context, tolerance: int, pongId: nat, now: int) {
    pongId == context.pingId && now - context.pingSentAt <= context.expectedTtl + tolerance
  }

  function HandlePong(s: World, n: Node, path: PathId, pongId: nat, now: int): World {
    var rows := Table(s, n);
    var own := Newest(rows, EndpointBy(path));
    if Newest(rows, ByReceived(path)).Some? || own.None? || rows[own.value].detail.context.None? then s
    else
      var context := rows[own.value].detail.context.value;
      if PongIsGood(context, s.tolerance, pongId, now) then
        WithTable(s, n, SetStatus(rows, EndpointBy(path), Active))
          .(publishing := s.publishing + {Publication(n, path, context)},
            trace := s.trace + [PongAccepted(n, path, context, pongId, now)])
      else WithTable(s, n, Invalidate(rows, EndpointBy(path)))
  }

  function OkPayload(c: Context): Sealed {
    Sealed(c.secret, ForOk, OkBody(c.virtualNode, c.finalPath, c.virtualSignature, c.physicalSignature))
  }

  function EndPublication(s: World, p: Publication, stored: bool): World {
    if stored then
      s.(sealed := s.sealed + {OkPayload(p.context)},
         trace := s.trace + [Stored(p.node, p.path, p.context), OkIssued(p.node, p.path, p.context)])
    else WithTable(s, p.node, Invalidate(Table(s, p.node), EndpointBy(p.path)))
  }

  predicate Agrees<T(==)>(column: Option<T>, value: T) {
    column.Some? ==> column.value == value
  }

  function HandleOk(s: World, n: Node, path: PathId, box: Sealed, public: Signature): World {
    var rows := Table(s, n);
    var own := Newest(rows, InitiatorBy(path));
    if Newest(rows, ByGenerated(path)).Some? || own.None? || rows[own.value].detail.secret.None? then s
    else
      var d := rows[own.value].detail;
      var plain := Open(box, d.secret.value, ForOk);
      if plain.None? || !plain.value.OkBody? then s
      else
        var b := plain.value;
        if && Agrees(d.virtualNode, b.virtualNode)
           && Agrees(d.finalPath, b.finalPath)
           && Agrees(d.virtualSignature, b.virtualSignature)
           && Verifies(b.physicalSignature, d.finalNode, EntryPoint(b.virtualNode, b.finalPath, b.virtualSignature))
           && Verifies(public, d.finalNode, PublicRoute(d.finalNode, d.nonce))
        then s.(confirming := s.confirming + {Confirmation(n, path, d.finalNode, b)})
        else s
  }

  function EndConfirmation(s: World, c: Confirmation, visible: bool): World {
    var rows := Table(s, c.node);
    if !visible || !c.body.OkBody? then WithTable(s, c.node, Invalidate(rows, InitiatorBy(c.path)))
    else
      var t := WithTable(s, c.node, SetActive(rows, c.path, c.body.finalPath, c.body.virtualSignature));
      if Newest(rows, InitiatorBy(c.path)).Some?
      then t.(trace := s.trace + [Activated(c.node, c.path, c.finalNode, c.body)])
      else t
  }

  function HandleFail(s: World, n: Node, path: PathId): World {
    var rows := Table(s, n);
    WithTable(s, n, Invalidate(rows, if Newest(rows, ByGenerated(path)).Some? then HopByEither(path)
        else InitiatorBy(path)))
  }

  function Next(s: World, a: Action): World
    requires Enabled(s, a)
  {
    match a
    case Start(n, firstHop, finalNode, path, nonce, expectedTtl, virtualNode) =>
      var row := Row(true, PendingKemOffer, Initiator(firstHop, finalNode, path, nonce, expectedTtl, virtualNode,
          None, None, None));
      WithTable(s, n, Table(s, n) + [row]).(paths := s.paths + {path})
    case ReceiveCreate(n, source, finalNode, path, nonce, kemKey, next, newPath) =>
      HandleCreate(s, n, source, finalNode, path, nonce, kemKey, next, newPath)
    case ReceiveKemInfo(n, path, kemKey, offer, defaultNode, finalPath, seed) =>
      HandleKemInfo(s, n, path, kemKey, offer, defaultNode, finalPath, seed)
    case ReceiveValidate(n, path, ciphertext, box, pingId, now) => HandleValidate(s, n, path, ciphertext, box, pingId,
        now)
    case ReceivePong(n, path, pongId, now) => HandlePong(s, n, path, pongId, now)
    case PublicationEnds(publication, stored) => EndPublication(s, publication, stored)
    case ReceiveOk(n, path, box, public) => HandleOk(s, n, path, box, public)
    case ConfirmationEnds(confirmation, visible) => EndConfirmation(s, confirmation, visible)
    case ReceiveFail(n, path) => HandleFail(s, n, path)
  }

  // ---------------------------------------------------------------- what the trace says about an issued OK

  ghost predicate PingBefore(trace: seq<Event>, j: nat, n: Node, path: PathId, c: Context) {
    exists i :: 0 <= i < j && i < |trace| && trace[i] == PingSent(n, path, c)
  }

  ghost predicate PongBefore(trace: seq<Event>, k: nat, tolerance: int, n: Node, path: PathId, c: Context) {
    exists j :: 0 <= j < k && j < |trace| && GoodPongAt(trace, j, tolerance, n, path, c)
  }

  ghost predicate GoodPongAt(trace: seq<Event>, j: nat, tolerance: int, n: Node, path: PathId, c: Context)
    requires j < |trace|
  {
    && trace[j].PongAccepted? && trace[j] == PongAccepted(n, path, c, trace[j].pongId, trace[j].now)
    && PongIsGood(c, tolerance, trace[j].pongId, trace[j].now)
    && PingBefore(trace, j, n, path, c)
  }

  /** OK issued right after the publication was reported stored, after a good pong, after the ping. */
  ghost predicate IssuedAt(trace: seq<Event>, l: nat, tolerance: int, n: Node, path: PathId, c: Context) {
    && 1 <= l < |trace|
    && trace[l] == OkIssued(n, path, c)
    && trace[l - 1] == Stored(n, path, c)
    && PongBefore(trace, l - 1, tolerance, n, path, c)
  }

  /** Node `f` issued, before position `upto`, an OK for exactly the triple in `b`. */
  ghost predicate Vouched(trace: seq<Event>, upto: nat, tolerance: int, f: Node, b: Body) {
    exists l, path, c {:trigger IssuedAt(trace, l, tolerance, f, path, c)} ::
      0 <= l < upto && IssuedAt(trace, l, tolerance, f, path, c) && OkPayload(c).body == b
  }

  // ---------------------------------------------------------------- the invariant

  ghost predicate OkPayloadsAreIssued(s: World) {
    forall x :: x in s.sealed && x.purpose == ForOk ==>
      exists l, n, path, c {:trigger IssuedAt(s.trace, l, s.tolerance, n, path, c)} ::
        0 <= l && IssuedAt(s.trace, l, s.tolerance, n, path, c) && OkPayload(c) == x
  }

  ghost predicate PingsUseOwnKey(s: World) {
    forall i :: 0 <= i < |s.trace| && s.trace[i].PingSent? ==>
      var c := s.trace[i].context;
      c.secret.kemKey in s.kemOwner && s.kemOwner[c.secret.kemKey] == s.trace[i].node
  }

  ghost predicate OffersAreOwned(s: World) {
    forall x :: x in s.signatures && x.statement.KemOffer? && x.signer in s.honest ==>
      x.statement.kemKey in s.kemOwner && s.kemOwner[x.statement.kemKey] == x.signer
  }

  ghost predicate PublicationsFollowPongs(s: World) {
    forall p :: p in s.publishing ==> PongBefore(s.trace, |s.trace|, s.tolerance, p.node, p.path, p.context)
  }

  /** The body with which the row is active. */
  function RowBody(d: Detail, physical: Signature): Body
    requires d.Initiator? && d.virtualNode.Some? && d.finalPath.Some? && d.virtualSignature.Some?
  {
    OkBody(d.virtualNode.value, d.finalPath.value, d.virtualSignature.value, physical)
  }

  ghost predicate ActiveIsVouched(s: World, d: Detail)
    requires d.Initiator?
  {
    && d.virtualNode.Some? && d.finalPath.Some? && d.virtualSignature.Some?
    && (d.finalNode in s.honest ==>
          exists physical: Signature :: Vouched(s.trace, |s.trace|, s.tolerance, d.finalNode, RowBody(d, physical)))
  }

  ghost predicate RowIsGood(s: World, n: Node, row: Row) {
    match row.detail
    case Hop(_, _, _, _) => true
    case Endpoint(_, path, _, kemKey, context) =>
      && kemKey in s.kemOwner && s.kemOwner[kemKey] == n
      && (context.Some? ==>
            context.value.secret.kemKey == kemKey && PingBefore(s.trace, |s.trace|, n, path, context.value))
    case Initiator(_, finalNode, initial, _, _, virtualNode, _, _, secret) =>
      && initial in s.paths
      && (secret.Some? ==>
            && virtualNode.Some? && secret.value.Shared? && secret.value.seed in s.seeds
            && (finalNode in s.honest ==>
                  secret.value.kemKey in s.kemOwner && s.kemOwner[secret.value.kemKey] == finalNode))
      && (row.status == Active ==> ActiveIsVouched(s, row.detail))
  }

  ghost predicate InitialsDiffer(rows: seq<Row>) {
    forall i, j :: 0 <= i < j < |rows| && rows[i].detail.Initiator? && rows[j].detail.Initiator? ==>
      rows[i].detail.initial != rows[j].detail.initial
  }

  ghost predicate TablesAreGood(s: World) {
    forall n :: InitialsDiffer(Table(s, n)) && forall i :: 0 <= i < |Table(s, n)| ==> RowIsGood(s, n, Table(s, n)[i])
  }

  /** The row a confirmation is about: it keeps its final node and, once chosen, its virtual node. */
  ghost predicate IsAbout(s: World, c: Confirmation, i: nat) {
    && i < |Table(s, c.node)|
    && var d := Table(s, c.node)[i].detail;
       d.Initiator? && d.initial == c.path && d.finalNode == c.finalNode && d.virtualNode == Some(c.body.virtualNode)
  }

  ghost predicate ConfirmationIsGood(s: World, c: Confirmation) {
    && c.body.OkBody?
    && (exists i :: IsAbout(s, c, i))
    && (c.finalNode in s.honest ==> Vouched(s.trace, |s.trace|, s.tolerance, c.finalNode, c.body))
  }

  ghost predicate ActivationsAreVouched(s: World) {
    forall a :: 0 <= a < |s.trace| && s.trace[a].Activated? && s.trace[a].finalNode in s.honest ==>
      Vouched(s.trace, a, s.tolerance, s.trace[a].finalNode, s.trace[a].body)
  }

  ghost predicate Invariant(s: World) {
    && OkPayloadsAreIssued(s) && PingsUseOwnKey(s) && OffersAreOwned(s) && PublicationsFollowPongs(s)
    && TablesAreGood(s)
    && (forall c :: c in s.confirming ==> ConfirmationIsGood(s, c))
    && ActivationsAreVouched(s)
  }

  predicate Init(s: World) {
    && s.tables == map[] && s.kemOwner == map[] && s.seeds == {} && s.paths == {}
    && s.sealed == {} && s.signatures == {} && s.publishing == {} && s.confirming == {} && s.trace == []
  }

  // ---------------------------------------------------------------- what time does not undo

  ghost predicate RowsLater(before: seq<Row>, after: seq<Row>) {
    && |before| <= |after|
    && forall i :: 0 <= i < |before| ==>
         && Identity(after[i]) == Identity(before[i])
         && (before[i].detail.Initiator? && before[i].detail.virtualNode.Some? ==>
               after[i].detail.virtualNode == before[i].detail.virtualNode)
  }

  ghost predicate Later(s: World, t: World) {
    && t.honest == s.honest && t.tolerance == s.tolerance
    && s.trace <= t.trace && s.seeds <= t.seeds && s.paths <= t.paths
    && (forall k :: k in s.kemOwner ==> k in t.kemOwner && t.kemOwner[k] == s.kemOwner[k])
    && (forall n :: RowsLater(Table(s, n), Table(t, n)))
  }

  lemma PingStays(before: seq<Event>, after: seq<Event>, j: nat, k: nat, n: Node, path: PathId, c: Context)
    requires before <= after && j <= k && PingBefore(before, j, n, path, c)
    ensures PingBefore(after, k, n, path, c)
  {
    var i :| 0 <= i < j && i < |before| && before[i] == PingSent(n, path, c);
    assert after[i] == before[i];
  }

  lemma PongStays(before: seq<Event>, after: seq<Event>, j: nat, k: nat, tolerance: int, n: Node, path: PathId,
                  c: Context)
    requires before <= after && j <= k && PongBefore(before, j, tolerance, n, path, c)
    ensures PongBefore(after, k, tolerance, n, path, c)
  {
    var i :| 0 <= i < j && i < |before| && GoodPongAt(before, i, tolerance, n, path, c);
    PingStays(before, after, i, i, n, path, c);
    assert GoodPongAt(after, i, tolerance, n, path, c);
  }

  lemma IssueStays(before: seq<Event>, after: seq<Event>, l: nat, tolerance: int, n: Node, path: PathId, c: Context)
    requires before <= after && IssuedAt(before, l, tolerance, n, path, c)
    ensures IssuedAt(after, l, tolerance, n, path, c)
  {
    PongStays(before, after, l - 1, l - 1, tolerance, n, path, c);
  }

  lemma VouchStays(before: seq<Event>, after: seq<Event>, j: nat, k: nat, tolerance: int, f: Node, b: Body)
    requires before <= after && j <= k && Vouched(before, j, tolerance, f, b)
    ensures Vouched(after, k, tolerance, f, b)
  {
    var l, path, c :| 0 <= l < j && IssuedAt(before, l, tolerance, f, path, c) && OkPayload(c).body == b;
    IssueStays(before, after, l, tolerance, f, path, c);
  }

  lemma RowStaysGood(s: World, t: World, n: Node, row: Row)
    requires Later(s, t) && RowIsGood(s, n, row)
    ensures RowIsGood(t, n, row)
  {
    var d := row.detail;
    if d.Endpoint? && d.context.Some? {
      PingStays(s.trace, t.trace, |s.trace|, |t.trace|, n, d.routePath, d.context.value);
    }
    if d.Initiator? && row.status == Active && d.finalNode in s.honest {
      var physical :| Vouched(s.trace, |s.trace|, s.tolerance, d.finalNode, RowBody(d, physical));
      VouchStays(s.trace, t.trace, |s.trace|, |t.trace|, s.tolerance, d.finalNode, RowBody(d, physical));
    }
  }

  lemma PayloadsStay(s: World, t: World)
    requires Later(s, t) && OkPayloadsAreIssued(s)
    requires forall x :: x in t.sealed && x.purpose == ForOk ==> x in s.sealed
    ensures OkPayloadsAreIssued(t)
  {
    forall x | x in t.sealed && x.purpose == ForOk
      ensures exists l, n, path, c {:trigger IssuedAt(t.trace, l, t.tolerance, n, path, c)} ::
                0 <= l && IssuedAt(t.trace, l, t.tolerance, n, path, c) && OkPayload(c) == x
    {
      var l, n, path, c :| 0 <= l && IssuedAt(s.trace, l, s.tolerance, n, path, c) && OkPayload(c) == x;
      IssueStays(s.trace, t.trace, l, s.tolerance, n, path, c);
    }
  }

  lemma PublicationsStay(s: World, t: World, p: Publication)
    requires Later(s, t) && PublicationsFollowPongs(s) && p in s.publishing
    ensures PongBefore(t.trace, |t.trace|, t.tolerance, p.node, p.path, p.context)
  {
    PongStays(s.trace, t.trace, |s.trace|, |t.trace|, s.tolerance, p.node, p.path, p.context);
  }

  lemma ConfirmationStays(s: World, t: World, c: Confirmation)
    requires Later(s, t) && ConfirmationIsGood(s, c)
    ensures ConfirmationIsGood(t, c)
  {
    var i :| IsAbout(s, c, i);
    assert RowsLater(Table(s, c.node), Table(t, c.node));
    assert IsAbout(t, c, i);
    if c.finalNode in s.honest {
      VouchStays(s.trace, t.trace, |s.trace|, |t.trace|, s.tolerance, c.finalNode, c.body);
    }
  }

  lemma ActivationsStay(s: World, t: World)
    requires Later(s, t) && ActivationsAreVouched(s)
    requires forall a :: |s.trace| <= a < |t.trace| ==> !t.trace[a].Activated?
    ensures ActivationsAreVouched(t)
  {
    forall a | 0 <= a < |t.trace| && t.trace[a].Activated? && t.trace[a].finalNode in t.honest
      ensures Vouched(t.trace, a, t.tolerance, t.trace[a].finalNode, t.trace[a].body)
    {
      assert s.trace[a] == t.trace[a];
      VouchStays(s.trace, t.trace, a, a, s.tolerance, t.trace[a].finalNode, t.trace[a].body);
    }
  }

  lemma PingsStay(s: World, t: World)
    requires Later(s, t) && PingsUseOwnKey(s)
    requires forall i :: |s.trace| <= i < |t.trace| ==> !t.trace[i].PingSent?
    ensures PingsUseOwnKey(t)
  {
    forall i | 0 <= i < |t.trace| && t.trace[i].PingSent?
      ensures t.trace[i].context.secret.kemKey in t.kemOwner
      ensures t.kemOwner[t.trace[i].context.secret.kemKey] == t.trace[i].node
    {
      assert s.trace[i] == t.trace[i];
    }
  }

  // ---------------------------------------------------------------- tables

  lemma UpdatedTablesAreGood(s: World, t: World, n: Node, i: nat, row: Row)
    requires TablesAreGood(s) && Later(s, t) && i < |Table(s, n)|
    requires t.tables == s.tables[n := Table(s, n)[i := row]]
    requires Identity(row) == Identity(Table(s, n)[i]) && RowIsGood(t, n, row)
    ensures TablesAreGood(t)
  {
    forall x ensures InitialsDiffer(Table(t, x)) && forall k :: 0 <= k < |Table(t, x)| ==>
        RowIsGood(t, x, Table(t, x)[k]) {
      assert InitialsDiffer(Table(s, x));
      forall k | 0 <= k < |Table(t, x)| ensures RowIsGood(t, x, Table(t, x)[k]) {
        if x != n || k != i {
          assert RowIsGood(s, x, Table(s, x)[k]);
          RowStaysGood(s, t, x, Table(s, x)[k]);
        }
      }
    }
  }

  lemma GrownTablesAreGood(s: World, t: World, n: Node, row: Row)
    requires TablesAreGood(s) && Later(s, t)
    requires t.tables == s.tables[n := Table(s, n) + [row]]
    requires RowIsGood(t, n, row) && (row.detail.Initiator? ==> row.detail.initial !in s.paths)
    ensures TablesAreGood(t)
  {
    forall x ensures InitialsDiffer(Table(t, x)) && forall k :: 0 <= k < |Table(t, x)| ==>
        RowIsGood(t, x, Table(t, x)[k]) {
      assert InitialsDiffer(Table(s, x));
      forall k | 0 <= k < |Table(s, x)| ensures RowIsGood(s, x, Table(s, x)[k]) && RowIsGood(t, x, Table(s, x)[k]) {
        RowStaysGood(s, t, x, Table(s, x)[k]);
      }
    }
  }

  lemma UnchangedTablesAreGood(s: World, t: World)
    requires TablesAreGood(s) && Later(s, t) && t.tables == s.tables
    ensures TablesAreGood(t)
  {
    forall x ensures InitialsDiffer(Table(t, x)) && forall k :: 0 <= k < |Table(t, x)| ==>
        RowIsGood(t, x, Table(t, x)[k]) {
      assert Table(s, x) == Table(t, x);
      forall k | 0 <= k < |Table(s, x)| ensures RowIsGood(t, x, Table(s, x)[k]) {
        RowStaysGood(s, t, x, Table(s, x)[k]);
      }
    }
  }

  /** The part of the invariant that a step leaves alone: everything but tables, for steps that add nothing to it. */
  lemma RestStays(s: World, t: World)
    requires Invariant(s) && Later(s, t)
    requires forall x :: x in t.sealed && x.purpose == ForOk ==> x in s.sealed
    requires forall x :: x in t.signatures && x.statement.KemOffer? ==> x in s.signatures
    requires t.trace == s.trace && t.publishing == s.publishing && t.confirming == s.confirming
    ensures TablesAreGood(t) ==> Invariant(t)
  {
    PayloadsStay(s, t);
    PingsStay(s, t);
    ActivationsStay(s, t);
    forall c | c in t.confirming ensures ConfirmationIsGood(t, c) {
      ConfirmationStays(s, t, c);
    }
  }

  lemma OneRowLater(s: World, t: World, n: Node, rows: seq<Row>)
    requires RowsLater(Table(s, n), rows) && t.tables == s.tables[n := rows]
    ensures forall x :: RowsLater(Table(s, x), Table(t, x))
  {
  }

  lemma InvalidationKeepsInvariant(s: World, n: Node, q: Query)
    requires Invariant(s)
    ensures Invariant(WithTable(s, n, Invalidate(Table(s, n), q)))
  {
    var rows := Table(s, n);
    var t := WithTable(s, n, Invalidate(rows, q));
    OneRowLater(s, t, n, Invalidate(rows, q));
    var found := Newest(rows, q);
    if found.Some? {
      assert InitialsDiffer(rows) && RowIsGood(s, n, rows[found.value]);
      RowStaysGood(s, t, n, rows[found.value]);
      UpdatedTablesAreGood(s, t, n, found.value, Invalidated(rows[found.value]));
    } else {
      assert forall x :: Table(t, x) == Table(s, x);
      NothingChanged(s, t);
    }
    RestStays(s, t);
  }

  lemma NothingChanged(s: World, t: World)
    requires TablesAreGood(s) && Later(s, t) && forall x :: Table(t, x) == Table(s, x)
    ensures TablesAreGood(t)
  {
    forall x ensures InitialsDiffer(Table(t, x)) && forall k :: 0 <= k < |Table(t, x)| ==>
        RowIsGood(t, x, Table(t, x)[k]) {
      assert InitialsDiffer(Table(s, x));
      forall k | 0 <= k < |Table(s, x)| ensures RowIsGood(t, x, Table(s, x)[k]) {
        RowStaysGood(s, t, x, Table(s, x)[k]);
      }
    }
  }

  // ---------------------------------------------------------------- the steps

  lemma StartKeepsInvariant(s: World, a: Action)
    requires Invariant(s) && Enabled(s, a) && a.Start?
    ensures Invariant(Next(s, a))
  {
    var t := Next(s, a);
    OneRowLater(s, t, a.node, Table(t, a.node));
    GrownTablesAreGood(s, t, a.node, Table(t, a.node)[|Table(s, a.node)|]);
    RestStays(s, t);
  }

  lemma CreateKeepsInvariant(s: World, a: Action)
    requires Invariant(s) && Enabled(s, a) && a.ReceiveCreate?
    ensures Invariant(Next(s, a))
  {
    var t := Next(s, a);
    OneRowLater(s, t, a.node, Table(t, a.node));
    GrownTablesAreGood(s, t, a.node, Table(t, a.node)[|Table(s, a.node)|]);
    PayloadsStay(s, t);
    PingsStay(s, t);
    ActivationsStay(s, t);
    forall c | c in t.confirming ensures ConfirmationIsGood(t, c) {
      ConfirmationStays(s, t, c);
    }
  }

  lemma KemInfoKeepsInvariant(s: World, a: Action)
    requires Invariant(s) && Enabled(s, a) && a.ReceiveKemInfo?
    ensures Invariant(Next(s, a))
  {
    var t, n, rows := Next(s, a), a.node, Table(s, a.node);
    var own := Newest(rows, InitiatorBy(a.path));
    if t != s {
      assert InitialsDiffer(rows) && RowIsGood(s, n, rows[own.value]);
      OneRowLater(s, t, n, Table(t, n));
      RowStaysGood(s, t, n, rows[own.value]);
      UpdatedTablesAreGood(s, t, n, own.value, Table(t, n)[own.value]);
      RestStays(s, t);
    }
  }

  lemma ValidateKeepsInvariant(s: World, a: Action)
    requires Invariant(s) && Enabled(s, a) && a.ReceiveValidate?
    ensures Invariant(Next(s, a))
  {
    var t, n, rows := Next(s, a), a.node, Table(s, a.node);
    var own := Newest(rows, EndpointBy(a.path));
    if t != s {
      assert InitialsDiffer(rows) && RowIsGood(s, n, rows[own.value]);
      OneRowLater(s, t, n, Table(t, n));
      var c := t.trace[|s.trace|].context;
      assert t.trace[|s.trace|] == PingSent(n, a.path, c);
      assert PingBefore(t.trace, |t.trace|, n, a.path, c);
      UpdatedTablesAreGood(s, t, n, own.value, Table(t, n)[own.value]);
      PayloadsStay(s, t);
      ActivationsStay(s, t);
      forall p | p in t.publishing ensures PongBefore(t.trace, |t.trace|, t.tolerance, p.node, p.path, p.context) {
        PublicationsStay(s, t, p);
      }
      forall x | x in t.confirming ensures ConfirmationIsGood(t, x) {
        ConfirmationStays(s, t, x);
      }
      assert PingsUseOwnKey(t);
    }
  }

  lemma PongKeepsInvariant(s: World, a: Action)
    requires Invariant(s) && Enabled(s, a) && a.ReceivePong?
    ensures Invariant(Next(s, a))
  {
    var t, n, rows := Next(s, a), a.node, Table(s, a.node);
    var own := Newest(rows, EndpointBy(a.path));
    if t.trace != s.trace {
      var c := rows[own.value].detail.context.value;
      assert InitialsDiffer(rows) && RowIsGood(s, n, rows[own.value]);
      OneRowLater(s, t, n, Table(t, n));
      RowStaysGood(s, t, n, rows[own.value]);
      UpdatedTablesAreGood(s, t, n, own.value, Table(t, n)[own.value]);
      PayloadsStay(s, t);
      PingsStay(s, t);
      ActivationsStay(s, t);
      PingStays(s.trace, t.trace, |s.trace|, |s.trace|, n, a.path, c);
      assert GoodPongAt(t.trace, |s.trace|, t.tolerance, n, a.path, c);
      forall p | p in t.publishing ensures PongBefore(t.trace, |t.trace|, t.tolerance, p.node, p.path, p.context) {
        if p in s.publishing {
          PublicationsStay(s, t, p);
        }
      }
      forall x | x in t.confirming ensures ConfirmationIsGood(t, x) {
        ConfirmationStays(s, t, x);
      }
    } else if t != s {
      InvalidationKeepsInvariant(s, n, EndpointBy(a.path));
    }
  }

  lemma PublicationKeepsInvariant(s: World, a: Action)
    requires Invariant(s) && Enabled(s, a) && a.PublicationEnds?
    ensures Invariant(Next(s, a))
  {
    var t, p := Next(s, a), a.publication;
    if a.stored {
      assert forall x :: RowsLater(Table(s, x), Table(t, x));
      UnchangedTablesAreGood(s, t);
      PingsStay(s, t);
      ActivationsStay(s, t);
      var l := |s.trace| + 1;
      PongStays(s.trace, t.trace, |s.trace|, l - 1, s.tolerance, p.node, p.path, p.context);
      assert IssuedAt(t.trace, l, t.tolerance, p.node, p.path, p.context);
      PayloadsStay(s, t.(sealed := s.sealed));
      forall x | x in t.publishing ensures PongBefore(t.trace, |t.trace|, t.tolerance, x.node, x.path, x.context) {
        PublicationsStay(s, t, x);
      }
      forall x | x in t.confirming ensures ConfirmationIsGood(t, x) {
        ConfirmationStays(s, t, x);
      }
    } else {
      InvalidationKeepsInvariant(s, p.node, EndpointBy(p.path));
    }
  }

  /** Whatever opens under the secret of an initiator that chose an honest final node was issued by that node. */
  lemma OpenedOkIsVouched(s: World, n: Node, i: nat, box: Sealed)
    requires Invariant(s) && i < |Table(s, n)| && Table(s, n)[i].detail.Initiator? && CanPresent(s, box)
    requires Table(s, n)[i].detail.finalNode in s.honest
    requires box.purpose == ForOk && Table(s, n)[i].detail.secret == Some(box.secret)
    ensures Vouched(s.trace, |s.trace|, s.tolerance, Table(s, n)[i].detail.finalNode, box.body)
  {
    assert InitialsDiffer(Table(s, n)) && RowIsGood(s, n, Table(s, n)[i]);
    assert Protected(s, box.secret) && box in s.sealed;
    var l, f, path, c :| 0 <= l && IssuedAt(s.trace, l, s.tolerance, f, path, c) && OkPayload(c) == box;
    var j :| 0 <= j < l - 1 && j < |s.trace| && GoodPongAt(s.trace, j, s.tolerance, f, path, c);
    var k :| 0 <= k < j && k < |s.trace| && s.trace[k] == PingSent(f, path, c);
    assert s.kemOwner[c.secret.kemKey] == f;
  }

  lemma OkKeepsInvariant(s: World, a: Action)
    requires Invariant(s) && Enabled(s, a) && a.ReceiveOk?
    ensures Invariant(Next(s, a))
  {
    var t, n, rows := Next(s, a), a.node, Table(s, a.node);
    var own := Newest(rows, InitiatorBy(a.path));
    if t != s {
      var i, d := own.value, rows[own.value].detail;
      var c := Confirmation(n, a.path, d.finalNode, a.box.body);
      assert InitialsDiffer(rows) && RowIsGood(s, n, rows[i]);
      assert IsAbout(s, c, i);
      if d.finalNode in s.honest {
        OpenedOkIsVouched(s, n, i, a.box);
      }
      assert ConfirmationIsGood(s, c);
      assert forall x :: RowsLater(Table(s, x), Table(t, x));
      UnchangedTablesAreGood(s, t);
      forall x | x in t.confirming ensures ConfirmationIsGood(t, x) {
        ConfirmationStays(s, t, x);
      }
    }
  }

  lemma ConfirmedRowIsGood(s: World, t: World, c: Confirmation, i: nat)
    requires Invariant(s) && Later(s, t) && c in s.confirming
    requires Newest(Table(s, c.node), InitiatorBy(c.path)) == Some(i)
    ensures c.body.OkBody?
    ensures var d := Table(s, c.node)[i].detail;
            d.finalNode == c.finalNode &&
            RowIsGood(t, c.node,
                Row(true, Active, d.(finalPath := Some(c.body.finalPath), virtualSignature :=
                    Some(c.body.virtualSignature))))
  {
    var rows := Table(s, c.node);
    assert ConfirmationIsGood(s, c);
    var k :| IsAbout(s, c, k);
    assert InitialsDiffer(rows) && RowIsGood(s, c.node, rows[i]);
    assert k == i;
    RowStaysGood(s, t, c.node, rows[i]);
    var d := rows[i].detail.(finalPath := Some(c.body.finalPath), virtualSignature := Some(c.body.virtualSignature));
    assert RowBody(d, c.body.physicalSignature) == c.body;
    if c.finalNode in s.honest {
      VouchStays(s.trace, t.trace, |s.trace|, |t.trace|, s.tolerance, c.finalNode, c.body);
    }
  }

  lemma ConfirmationKeepsInvariant(s: World, a: Action)
    requires Invariant(s) && Enabled(s, a) && a.ConfirmationEnds?
    ensures Invariant(Next(s, a))
  {
    var t, c := Next(s, a), a.confirmation;
    var n, rows := c.node, Table(s, c.node);
    var own := Newest(rows, InitiatorBy(c.path));
    assert ConfirmationIsGood(s, c);
    if !a.visible {
      InvalidationKeepsInvariant(s, n, InitiatorBy(c.path));
    } else if own.None? {
      assert forall x :: Table(t, x) == Table(s, x);
      NothingChanged(s, t);
      RestStays(s, t);
    } else {
      OneRowLater(s, t, n, Table(t, n));
      ConfirmedRowIsGood(s, t, c, own.value);
      UpdatedTablesAreGood(s, t, n, own.value, Table(t, n)[own.value]);
      PayloadsStay(s, t);
      PingsStay(s, t);
      if c.finalNode in s.honest {
        VouchStays(s.trace, t.trace, |s.trace|, |s.trace|, s.tolerance, c.finalNode, c.body);
      }
      ActivationsStay(s, t.(trace := s.trace));
      NewActivation(s, t, c);
      forall p | p in t.publishing ensures PongBefore(t.trace, |t.trace|, t.tolerance, p.node, p.path, p.context) {
        PublicationsStay(s, t, p);
      }
      forall x | x in t.confirming ensures ConfirmationIsGood(t, x) {
        ConfirmationStays(s, t, x);
      }
    }
  }

  lemma NewActivation(s: World, t: World, c: Confirmation)
    requires Later(s, t) && ActivationsAreVouched(s)
    requires t.trace == s.trace + [Activated(c.node, c.path, c.finalNode, c.body)]
    requires c.finalNode in s.honest ==> Vouched(s.trace, |s.trace|, s.tolerance, c.finalNode, c.body)
    ensures ActivationsAreVouched(t)
  {
    forall a | 0 <= a < |t.trace| && t.trace[a].Activated? && t.trace[a].finalNode in t.honest
      ensures Vouched(t.trace, a, t.tolerance, t.trace[a].finalNode, t.trace[a].body)
    {
      VouchStays(s.trace, t.trace, a, a, s.tolerance, t.trace[a].finalNode, t.trace[a].body);
    }
  }

  lemma StepKeepsInvariant(s: World, a: Action)
    requires Invariant(s) && Enabled(s, a)
    ensures Invariant(Next(s, a))
  {
    match a {
      case Start(_, _, _, _, _, _, _) => StartKeepsInvariant(s, a);
      case ReceiveCreate(_, _, _, _, _, _, _, _) => CreateKeepsInvariant(s, a);
      case ReceiveKemInfo(_, _, _, _, _, _, _) => KemInfoKeepsInvariant(s, a);
      case ReceiveValidate(_, _, _, _, _, _) => ValidateKeepsInvariant(s, a);
      case ReceivePong(_, _, _, _) => PongKeepsInvariant(s, a);
      case PublicationEnds(_, _) => PublicationKeepsInvariant(s, a);
      case ReceiveOk(_, _, _, _) => OkKeepsInvariant(s, a);
      case ConfirmationEnds(_, _) => ConfirmationKeepsInvariant(s, a);
      case ReceiveFail(n, path) =>
        var rows := Table(s, n);
        InvalidationKeepsInvariant(s, n, if Newest(rows, ByGenerated(path)).Some? then HopByEither(path)
            else InitiatorBy(path));
    }
  }

  ghost predicate IsRun(states: seq<World>, actions: seq<Action>) {
    && |states| == |actions| + 1
    && Init(states[0])
    && forall i {:trigger actions[i]} :: 0 <= i < |actions| ==>
        Enabled(states[i], actions[i]) && states[i + 1] == Next(states[i], actions[i])
  }

  lemma {:induction false} RunKeepsInvariant(states: seq<World>, actions: seq<Action>, i: nat)
    requires IsRun(states, actions) && i < |states|
    ensures Invariant(states[i])
  {
    if i > 0 {
      RunKeepsInvariant(states, actions, i - 1);
      StepKeepsInvariant(states[i - 1], actions[i - 1]);
    }
  }

  // ---------------------------------------------------------------- agreement

  /** The four moments at the final node, in order, all for the same context. */
  ghost predicate Handshake(trace: seq<Event>, tolerance: int, ping: nat, pong: nat, stored: nat, issued: nat, f: Node,
                            path: PathId, c: Context)
  {
    && ping < pong < stored < issued < |trace|
    && trace[ping] == PingSent(f, path, c)
    && trace[pong].PongAccepted? && trace[pong] == PongAccepted(f, path, c, trace[pong].pongId, trace[pong].now)
    && trace[pong].pongId == c.pingId
    && trace[pong].now - c.pingSentAt <= c.expectedTtl + tolerance
    && trace[stored] == Stored(f, path, c)
    && trace[issued] == OkIssued(f, path, c)
  }

  lemma VouchedIsHandshake(trace: seq<Event>, upto: nat, tolerance: int, f: Node, b: Body)
    returns (ping: nat, pong: nat, stored: nat, issued: nat, path: PathId, c: Context)
    requires Vouched(trace, upto, tolerance, f, b)
    ensures Handshake(trace, tolerance, ping, pong, stored, issued, f, path, c) && issued < upto
    ensures OkPayload(c).body == b
  {
    issued, path, c :| 0 <= issued < upto && IssuedAt(trace, issued, tolerance, f, path, c) && OkPayload(c).body == b;
    stored := issued - 1;
    pong :| 0 <= pong < stored && pong < |trace| && GoodPongAt(trace, pong, tolerance, f, path, c);
    ping :| 0 <= ping < pong && ping < |trace| && trace[ping] == PingSent(f, path, c);
  }

  /**
   * In every reachable state: an initiator row that is active and names an honest final node carries the virtual node,
   * the final path id and the signature of an OK which that node issued, after its publication was stored, after a
   * pong that answered its ping in time.
   */
  lemma ActiveRouteWasAgreed(states: seq<World>, actions: seq<Action>, i: nat, n: Node, k: nat)
    returns (ping: nat, pong: nat, stored: nat, issued: nat, path: PathId, c: Context)
    requires IsRun(states, actions) && i < |states| && k < |Table(states[i], n)|
    requires Table(states[i], n)[k].detail.Initiator? && Table(states[i], n)[k].status == Active
    requires Table(states[i], n)[k].detail.finalNode in states[i].honest
    ensures var d := Table(states[i], n)[k].detail;
            && Handshake(states[i].trace, states[i].tolerance, ping, pong, stored, issued, d.finalNode, path, c)
            && d.virtualNode == Some(c.virtualNode)
            && d.finalPath == Some(c.finalPath)
            && d.virtualSignature == Some(c.virtualSignature)
  {
    RunKeepsInvariant(states, actions, i);
    var s, d := states[i], Table(states[i], n)[k].detail;
    assert InitialsDiffer(Table(s, n)) && RowIsGood(s, n, Table(s, n)[k]);
    var physical :| Vouched(s.trace, |s.trace|, s.tolerance, d.finalNode, RowBody(d, physical));
    ping, pong, stored, issued, path, c :=
        VouchedIsHandshake(s.trace, |s.trace|, s.tolerance, d.finalNode, RowBody(d, physical));
  }

  /** The same for the moment of activation: the whole handshake comes before it. */
  lemma ActivationComesLast(states: seq<World>, actions: seq<Action>, i: nat, a: nat)
    returns (ping: nat, pong: nat, stored: nat, issued: nat, path: PathId, c: Context)
    requires IsRun(states, actions) && i < |states| && a < |states[i].trace|
    requires states[i].trace[a].Activated? && states[i].trace[a].finalNode in states[i].honest
    ensures var e := states[i].trace[a];
            && Handshake(states[i].trace, states[i].tolerance, ping, pong, stored, issued, e.finalNode, path, c)
            && issued < a
            && OkPayload(c).body == e.body
  {
    RunKeepsInvariant(states, actions, i);
    var s, e := states[i], states[i].trace[a];
    ping, pong, stored, issued, path, c := VouchedIsHandshake(s.trace, a, s.tolerance, e.finalNode, e.body);
  }
}
