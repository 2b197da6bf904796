/**
 * What the handlers of the handshake check, as it shows in the tables of every run, whoever the final node is: nothing
 * is stored or activated that is not signed, and nothing is reported in the trace that a step did not do.
 */
module RouteChecks {
  import opened Crypto
  import opened RouteTable
  import opened RouteAgreement
  import opened Wrappers

  // ---------------------------------------------------------------- what rows say

  /** A ping context: the request was signed by its virtual node, and the answer to it is signed by this one. */
  ghost predicate ContextIsChecked(signatures: set<Signature>, n: Node, nonce: nat, c: Context) {
    && c.expectedTtl > 0
    && c.virtualSignature == Signed(c.virtualNode, FinalPath(c.finalPath, n))
    && c.physicalSignature == Signed(n, EntryPoint(c.virtualNode, c.finalPath, c.virtualSignature))
    && c.publicSignature == Signed(n, PublicRoute(n, nonce))
    && c.physicalSignature in signatures && c.publicSignature in signatures
  }

  /** The final node, if it is honest, has signed the route of this nonce. */
  ghost predicate PublicSeen(signatures: set<Signature>, honest: set<Node>, finalNode: Node, nonce: nat) {
    finalNode in honest ==> Signed(finalNode, PublicRoute(finalNode, nonce)) in signatures
  }

  /** A final path is signed by the virtual node, for the final node, and was asked for with a budget. */
  ghost predicate ClaimIsSigned(d: Detail)
    requires d.Initiator?
  {
    && d.expectedTtl.Some? && d.expectedTtl.value > 0
    && d.virtualNode.Some? && d.finalPath.Some?
    && d.virtualSignature == Some(Signed(d.virtualNode.value, FinalPath(d.finalPath.value, d.finalNode)))
  }

  ghost predicate RowIsChecked(signatures: set<Signature>, honest: set<Node>, n: Node, row: Row) {
    match row.detail
    case Hop(_, _, _, _) => true
    case Endpoint(_, _, nonce, _, context) =>
      context.Some? ==> ContextIsChecked(signatures, n, nonce, context.value)
    case Initiator(_, finalNode, _, nonce, _, _, finalPath, _, secret) =>
      && (finalPath.Some? || secret.Some? || row.status == Active ==> ClaimIsSigned(row.detail))
      && (row.status == Active ==> PublicSeen(signatures, honest, finalNode, nonce))
  }

  ghost predicate RowsAreChecked(s: World) {
    forall n, i :: 0 <= i < |Table(s, n)| ==> RowIsChecked(s.signatures, s.honest, n, Table(s, n)[i])
  }

  /** A public signature of an honest node is for a row that it has. */
  ghost predicate HasEndpoint(s: World, n: Node, nonce: nat) {
    exists i :: && 0 <= i < |Table(s, n)| && Table(s, n)[i].detail.Endpoint?
                && Table(s, n)[i].detail.endpointNonce == nonce
  }

  ghost predicate PublicsAreOwned(s: World) {
    forall x :: x in s.signatures && x.signer in s.honest && x.statement.PublicRoute? ==>
      HasEndpoint(s, x.signer, x.statement.nonce)
  }

  /** The row that a confirmation is about was asked for with a budget, and the final node has signed its nonce. */
  ghost predicate IsAskedFor(s: World, c: Confirmation, i: nat) {
    && IsAbout(s, c, i)
    && var d := Table(s, c.node)[i].detail;
       d.expectedTtl.Some? && d.expectedTtl.value > 0 && PublicSeen(s.signatures, s.honest, c.finalNode, d.nonce)
  }

  ghost predicate ConfirmationIsChecked(s: World, c: Confirmation) {
    && c.body.OkBody?
    && c.body.virtualSignature == Signed(c.body.virtualNode, FinalPath(c.body.finalPath, c.finalNode))
    && c.body.physicalSignature ==
       Signed(c.finalNode, EntryPoint(c.body.virtualNode, c.body.finalPath, c.body.virtualSignature))
    && exists i: nat :: IsAskedFor(s, c, i)
  }

  ghost predicate Checked(s: World) {
    && RowsAreChecked(s) && PublicsAreOwned(s)
    && forall c :: c in s.confirming ==> ConfirmationIsChecked(s, c)
  }

  // ---------------------------------------------------------------- what every step keeps

  ghost predicate GoesOn(s: World, t: World) {
    && t.honest == s.honest && s.signatures <= t.signatures
    && forall n :: RowsLater(Table(s, n), Table(t, n))
  }

  lemma ReceivingGoesOn(s: World, a: Action)
    requires Enabled(s, a) && !a.PublicationEnds? && !a.ConfirmationEnds? && !a.ReceiveOk?
    ensures GoesOn(s, Next(s, a))
  {
    var t, n := Next(s, a), a.node;
    if t == s {
      assert forall x :: RowsLater(Table(s, x), Table(t, x));
    } else {
      OneRowLater(s, t, n, Table(t, n));
    }
  }

  lemma WaitingGoesOn(s: World, a: Action)
    requires Enabled(s, a) && (a.PublicationEnds? || a.ReceiveOk?)
    ensures GoesOn(s, Next(s, a))
  {
    var t := Next(s, a);
    if t.tables == s.tables {
      assert forall x :: RowsLater(Table(s, x), Table(t, x));
    } else {
      OneRowLater(s, t, a.publication.node, Table(t, a.publication.node));
    }
  }

  lemma ConfirmingGoesOn(s: World, a: Action)
    requires Enabled(s, a) && a.ConfirmationEnds?
    ensures GoesOn(s, Next(s, a))
  {
    OneRowLater(s, Next(s, a), a.confirmation.node, Table(Next(s, a), a.confirmation.node));
  }

  lemma StepGoesOn(s: World, a: Action)
    requires Enabled(s, a)
    ensures GoesOn(s, Next(s, a))
  {
    if a.ConfirmationEnds? {
      ConfirmingGoesOn(s, a);
    } else if a.PublicationEnds? || a.ReceiveOk? {
      WaitingGoesOn(s, a);
    } else {
      ReceivingGoesOn(s, a);
    }
  }

  /** Every row is as it was, or is checked itself. */
  lemma RowsStayChecked(s: World, t: World)
    requires RowsAreChecked(s) && t.honest == s.honest && s.signatures <= t.signatures
    requires forall n, i :: 0 <= i < |Table(t, n)| ==>
               || (i < |Table(s, n)| && Table(t, n)[i] == Table(s, n)[i])
               || RowIsChecked(t.signatures, t.honest, n, Table(t, n)[i])
    ensures RowsAreChecked(t)
  {
    forall n, i | 0 <= i < |Table(t, n)| ensures RowIsChecked(t.signatures, t.honest, n, Table(t, n)[i]) {
      if i < |Table(s, n)| && Table(t, n)[i] == Table(s, n)[i] {
        assert RowIsChecked(s.signatures, s.honest, n, Table(s, n)[i]);
      }
    }
  }

  lemma UpdatedRowsAreChecked(s: World, t: World, n: Node, i: nat, row: Row)
    requires RowsAreChecked(s) && t.honest == s.honest && s.signatures <= t.signatures && i < |Table(s, n)|
    requires t.tables == s.tables[n := Table(s, n)[i := row]] && RowIsChecked(t.signatures, t.honest, n, row)
    ensures RowsAreChecked(t)
  {
    RowsStayChecked(s, t);
  }

  lemma GrownRowsAreChecked(s: World, t: World, n: Node, row: Row)
    requires RowsAreChecked(s) && t.honest == s.honest && s.signatures <= t.signatures
    requires t.tables == s.tables[n := Table(s, n) + [row]] && RowIsChecked(t.signatures, t.honest, n, row)
    ensures RowsAreChecked(t)
  {
    RowsStayChecked(s, t);
  }

  lemma SameRowsAreChecked(s: World, t: World)
    requires RowsAreChecked(s) && t.honest == s.honest && s.signatures <= t.signatures
    requires forall n :: Table(t, n) == Table(s, n)
    ensures RowsAreChecked(t)
  {
    RowsStayChecked(s, t);
  }

  lemma InvalidatedRowsAreChecked(s: World, n: Node, q: Query)
    requires RowsAreChecked(s)
    ensures RowsAreChecked(WithTable(s, n, Invalidate(Table(s, n), q)))
  {
    var rows, found := Table(s, n), Newest(Table(s, n), q);
    if found.Some? {
      assert RowIsChecked(s.signatures, s.honest, n, rows[found.value]);
      UpdatedRowsAreChecked(s, WithTable(s, n, Invalidate(rows, q)), n, found.value, Invalidated(rows[found.value]));
    } else {
      SameRowsAreChecked(s, WithTable(s, n, rows));
    }
  }

  lemma EndpointStays(s: World, t: World, n: Node, nonce: nat)
    requires GoesOn(s, t) && HasEndpoint(s, n, nonce)
    ensures HasEndpoint(t, n, nonce)
  {
    var i :| && 0 <= i < |Table(s, n)| && Table(s, n)[i].detail.Endpoint?
             && Table(s, n)[i].detail.endpointNonce == nonce;
    assert RowsLater(Table(s, n), Table(t, n));
    assert Identity(Table(t, n)[i]) == Identity(Table(s, n)[i]);
  }

  lemma PublicsStay(s: World, t: World)
    requires GoesOn(s, t) && PublicsAreOwned(s)
    requires forall x :: x in t.signatures && x !in s.signatures && x.statement.PublicRoute? ==>
               HasEndpoint(t, x.signer, x.statement.nonce)
    ensures PublicsAreOwned(t)
  {
    forall x | x in t.signatures && x.signer in t.honest && x.statement.PublicRoute?
      ensures HasEndpoint(t, x.signer, x.statement.nonce)
    {
      if x in s.signatures {
        EndpointStays(s, t, x.signer, x.statement.nonce);
      }
    }
  }

  lemma CheckStays(s: World, t: World, c: Confirmation)
    requires GoesOn(s, t) && ConfirmationIsChecked(s, c)
    ensures ConfirmationIsChecked(t, c)
  {
    var i: nat :| IsAskedFor(s, c, i);
    assert RowsLater(Table(s, c.node), Table(t, c.node));
    assert Identity(Table(t, c.node)[i]) == Identity(Table(s, c.node)[i]);
    assert IsAskedFor(t, c, i);
  }

  /** Steps that start no confirmation and make no public signature. */
  lemma RestIsChecked(s: World, t: World)
    requires Checked(s) && GoesOn(s, t) && t.confirming == s.confirming && RowsAreChecked(t)
    requires forall x :: x in t.signatures && x !in s.signatures && x.statement.PublicRoute? ==>
               HasEndpoint(t, x.signer, x.statement.nonce)
    ensures Checked(t)
  {
    PublicsStay(s, t);
    forall c | c in t.confirming ensures ConfirmationIsChecked(t, c) {
      CheckStays(s, t, c);
    }
  }

  // ---------------------------------------------------------------- the steps

  lemma BeginningIsChecked(s: World, a: Action)
    requires Checked(s) && Enabled(s, a) && (a.Start? || a.ReceiveCreate?)
    ensures Checked(Next(s, a))
  {
    var t := Next(s, a);
    StepGoesOn(s, a);
    GrownRowsAreChecked(s, t, a.node, Table(t, a.node)[|Table(s, a.node)|]);
    RestIsChecked(s, t);
  }

  lemma CommitmentIsChecked(s: World, a: Action)
    requires Checked(s) && Enabled(s, a) && a.ReceiveKemInfo?
    ensures Checked(Next(s, a))
  {
    var t, n := Next(s, a), a.node;
    var own := Newest(Table(s, n), InitiatorBy(a.path));
    if t != s {
      StepGoesOn(s, a);
      UpdatedRowsAreChecked(s, t, n, own.value, Table(t, n)[own.value]);
      RestIsChecked(s, t);
    }
  }

  lemma ContextIsStored(s: World, a: Action)
    requires Checked(s) && Enabled(s, a) && a.ReceiveValidate?
    ensures Checked(Next(s, a))
  {
    var t, n := Next(s, a), a.node;
    var own := Newest(Table(s, n), EndpointBy(a.path));
    if t != s {
      StepGoesOn(s, a);
      var row := Table(t, n)[own.value];
      UpdatedRowsAreChecked(s, t, n, own.value, row);
      assert row.detail.Endpoint? && HasEndpoint(t, n, row.detail.endpointNonce);
      RestIsChecked(s, t);
    }
  }

  lemma PongIsChecked(s: World, a: Action)
    requires Checked(s) && Enabled(s, a) && a.ReceivePong?
    ensures Checked(Next(s, a))
  {
    var t, n := Next(s, a), a.node;
    var own := Newest(Table(s, n), EndpointBy(a.path));
    if t != s {
      StepGoesOn(s, a);
      UpdatedRowsAreChecked(s, t, n, own.value, Table(t, n)[own.value]);
      RestIsChecked(s, t);
    }
  }

  lemma PublicationIsChecked(s: World, a: Action)
    requires Checked(s) && Enabled(s, a) && (a.PublicationEnds? || a.ReceiveFail?)
    ensures Checked(Next(s, a))
  {
    var t := Next(s, a);
    StepGoesOn(s, a);
    if a.ReceiveFail? {
      InvalidatedRowsAreChecked(s, a.node, if Newest(Table(s, a.node), ByGenerated(a.path)).Some?
          then HopByEither(a.path) else InitiatorBy(a.path));
    } else if a.stored {
      assert forall n :: Table(t, n) == Table(s, n);
      SameRowsAreChecked(s, t);
    } else {
      InvalidatedRowsAreChecked(s, a.publication.node, EndpointBy(a.publication.path));
    }
    RestIsChecked(s, t);
  }

  lemma OkIsChecked(s: World, a: Action)
    requires Checked(s) && Enabled(s, a) && a.ReceiveOk?
    ensures Checked(Next(s, a))
  {
    var t, n := Next(s, a), a.node;
    var own := Newest(Table(s, n), InitiatorBy(a.path));
    if t != s {
      var d := Table(s, n)[own.value].detail;
      assert RowIsChecked(s.signatures, s.honest, n, Table(s, n)[own.value]);
      StepGoesOn(s, a);
      assert forall x :: Table(t, x) == Table(s, x);
      SameRowsAreChecked(s, t);
      PublicsStay(s, t);
      var c := Confirmation(n, a.path, d.finalNode, a.box.body);
      assert IsAskedFor(t, c, own.value);
      forall x | x in t.confirming ensures ConfirmationIsChecked(t, x) {
        if x in s.confirming {
          CheckStays(s, t, x);
        }
      }
    }
  }

  lemma ActivationIsChecked(s: World, a: Action)
    requires TablesAreGood(s) && Checked(s) && Enabled(s, a) && a.ConfirmationEnds?
    ensures Checked(Next(s, a))
  {
    var t, c := Next(s, a), a.confirmation;
    var rows, own := Table(s, c.node), Newest(Table(s, c.node), InitiatorBy(c.path));
    StepGoesOn(s, a);
    assert ConfirmationIsChecked(s, c);
    if own.None? {
      assert forall n :: Table(t, n) == Table(s, n);
      SameRowsAreChecked(s, t);
    } else if a.visible {
      var k: nat :| IsAskedFor(s, c, k);
      assert InitialsDiffer(rows) && k == own.value;
      UpdatedRowsAreChecked(s, t, c.node, own.value, Table(t, c.node)[own.value]);
    } else {
      InvalidatedRowsAreChecked(s, c.node, InitiatorBy(c.path));
    }
    RestIsChecked(s, t);
  }

  lemma StepIsChecked(s: World, a: Action)
    requires RouteAgreement.Invariant(s) && Checked(s) && Enabled(s, a)
    ensures Checked(Next(s, a))
  {
    match a {
      case ReceiveKemInfo(_, _, _, _, _, _, _) => CommitmentIsChecked(s, a);
      case ReceiveValidate(_, _, _, _, _, _) => ContextIsStored(s, a);
      case ReceivePong(_, _, _, _) => PongIsChecked(s, a);
      case ReceiveOk(_, _, _, _) => OkIsChecked(s, a);
      case ConfirmationEnds(_, _) => ActivationIsChecked(s, a);
      case PublicationEnds(_, _) => PublicationIsChecked(s, a);
      case ReceiveFail(_, _) => PublicationIsChecked(s, a);
      case _ => BeginningIsChecked(s, a);
    }
  }

  lemma {:induction false} RunIsChecked(states: seq<World>, actions: seq<Action>, i: nat)
    requires IsRun(states, actions) && i < |states|
    ensures Checked(states[i])
  {
    if i > 0 {
      RunIsChecked(states, actions, i - 1);
      RunKeepsInvariant(states, actions, i - 1);
      StepIsChecked(states[i - 1], actions[i - 1]);
    }
  }

  /**
   * In every run, whoever the final node is and whatever the attacker does: an active route carries its virtual node's
   * own signature on its final path and final node, and was asked for with a budget. If the final node is honest, the
   * nonce of the route has reached it.
   */
  lemma ActiveRouteIsSigned(states: seq<World>, actions: seq<Action>, i: nat, n: Node, k: nat)
    requires IsRun(states, actions) && i < |states| && k < |Table(states[i], n)|
    requires Table(states[i], n)[k].detail.Initiator? && Table(states[i], n)[k].status == Active
    ensures var d := Table(states[i], n)[k].detail;
            && ClaimIsSigned(d)
            && (d.finalNode in states[i].honest ==> HasEndpoint(states[i], d.finalNode, d.nonce))
  {
    RunIsChecked(states, actions, i);
    assert RowIsChecked(states[i].signatures, states[i].honest, n, Table(states[i], n)[k]);
  }

  /** What the final node keeps of a request was signed by the virtual node that asks, for this final node. */
  lemma ContextsAreSigned(states: seq<World>, actions: seq<Action>, i: nat, n: Node, k: nat)
    requires IsRun(states, actions) && i < |states| && k < |Table(states[i], n)|
    requires Table(states[i], n)[k].detail.Endpoint? && Table(states[i], n)[k].detail.context.Some?
    ensures var d := Table(states[i], n)[k].detail;
            ContextIsChecked(states[i].signatures, n, d.endpointNonce, d.context.value)
  {
    RunIsChecked(states, actions, i);
    assert RowIsChecked(states[i].signatures, states[i].honest, n, Table(states[i], n)[k]);
  }

  // ---------------------------------------------------------------- the trace and the steps

  /** The step that an event of the trace reports, and what it was given. */
  ghost predicate Did(a: Action, e: Event) {
    match e
    case PingSent(n, path, c) =>
      && a.ReceiveValidate? && a.node == n && a.path == path && c.pingId == a.pingId && c.pingSentAt == a.now
      && a.box == Sealed(c.secret, ForValidate,
          ValidateBody(c.virtualNode, c.finalPath, n, c.expectedTtl, c.virtualSignature))
    case PongAccepted(n, path, _, pongId, now) => a == ReceivePong(n, path, pongId, now)
    case Stored(n, path, c) => a == PublicationEnds(Publication(n, path, c), true)
    case OkIssued(n, path, c) => a == PublicationEnds(Publication(n, path, c), true)
    case Activated(n, path, finalNode, body) => a == ConfirmationEnds(Confirmation(n, path, finalNode, body), true)
  }

  lemma StepDid(s: World, a: Action, j: nat)
    requires Enabled(s, a) && j < |Next(s, a).trace|
    ensures s.trace <= Next(s, a).trace
    ensures j >= |s.trace| ==> Did(a, Next(s, a).trace[j])
  {
  }

  /**
   * Whatever the trace reports was done by a step: a ping for a request that was opened, a pong that came, a
   * publication that was reported stored, an entry that was reported visible.
   */
  lemma {:induction false} TraceWasDone(states: seq<World>, actions: seq<Action>, i: nat, j: nat) returns (k: nat)
    requires IsRun(states, actions) && i < |states| && j < |states[i].trace|
    ensures k < i && Did(actions[k], states[i].trace[j])
  {
    StepDid(states[i - 1], actions[i - 1], j);
    if j < |states[i - 1].trace| {
      k := TraceWasDone(states, actions, i - 1, j);
    } else {
      k := i - 1;
    }
  }

  /** The row that a failure is about: a pong that is not good, an entry not stored or not visible, a FAIL. */
  ghost function Failed(s: World, a: Action): Option<(Node, nat)>
    requires Enabled(s, a)
  {
    var (n, found) :=
      match a
      case ReceivePong(n, path, pongId, now) =>
        var own := Newest(Table(s, n), EndpointBy(path));
        (n, if own.Some? && Table(s, n)[own.value].detail.context.Some?
               && Newest(Table(s, n), ByReceived(path)).None?
               && (pongId != Table(s, n)[own.value].detail.context.value.pingId
                   || now > Table(s, n)[own.value].detail.context.value.pingSentAt
                            + Table(s, n)[own.value].detail.context.value.expectedTtl + s.tolerance)
            then own else None)
      case PublicationEnds(p, stored) => (p.node, if stored then None else Newest(Table(s, p.node), EndpointBy(p.path)))
      case ConfirmationEnds(c, visible) =>
        (c.node, if visible then None else Newest(Table(s, c.node), InitiatorBy(c.path)))
      case ReceiveFail(n, path) =>
        (n, if Newest(Table(s, n), ByGenerated(path)).Some? then None else Newest(Table(s, n), InitiatorBy(path)))
      case _ => (0, None);
    if found.Some? then Some((n, found.value)) else None
  }

  /** A failure invalidates its row, changes no other row, and reports, seals and signs nothing. */
  lemma FailureEndsItsRow(s: World, a: Action)
    requires Enabled(s, a) && Failed(s, a).Some?
    ensures var (n, i) := Failed(s, a).value;
            var t := Next(s, a);
            && i < |Table(s, n)| && Table(s, n)[i].valid
            && t == s.(tables := t.tables) && |Table(t, n)| == |Table(s, n)| && !Table(t, n)[i].valid
            && (forall x :: x != n ==> Table(t, x) == Table(s, x))
            && (forall k :: 0 <= k < |Table(s, n)| && k != i ==> Table(t, n)[k] == Table(s, n)[k])
  {
  }

  // ---------------------------------------------------------------- what is not handled here

  /** Where a message goes on to another node, this node does nothing with it itself. */
  lemma RelayedIsNotHandled(s: World, a: Action)
    requires Enabled(s, a)
    requires
      || ((a.ReceiveKemInfo? || a.ReceiveOk?) && Newest(Table(s, a.node), ByGenerated(a.path)).Some?)
      || ((a.ReceiveValidate? || a.ReceivePong?) && Newest(Table(s, a.node), ByReceived(a.path)).Some?)
    ensures Next(s, a) == s
  {
  }

  /** A request that was sealed for the holder of another key opens nothing here. */
  lemma OtherKeysOpenNothing(s: World, a: Action, i: nat, kemKey: nat, seed: nat)
    requires Enabled(s, a) && a.ReceiveValidate? && Newest(Table(s, a.node), EndpointBy(a.path)) == Some(i)
    requires kemKey != Table(s, a.node)[i].detail.kemKey
    requires (a.ciphertext, a.box.secret) == Encapsulate(kemKey, seed)
    ensures Next(s, a) == s
  {
  }

  /** The one row that a step adds at a node. */
  ghost predicate Adds(s: World, t: World, n: Node, row: Row) {
    Table(t, n) == Table(s, n) + [row] && forall x :: x != n ==> Table(t, x) == Table(s, x)
  }

  /** A request makes the row that its node needs: to relay, or, at the final node, to offer a key, which it signs. */
  lemma RequestMakesItsRow(s: World, a: Action)
    requires Enabled(s, a) && a.ReceiveCreate?
    ensures var t, n := Next(s, a), a.node;
            if n == a.finalNode then
              && Adds(s, t, n, Row(true, PendingValidation, Endpoint(a.source, a.path, a.nonce, a.kemKey, None)))
              && Signed(n, KemOffer(a.kemKey)) in t.signatures && t.kemOwner == s.kemOwner[a.kemKey := n]
            else
              && Adds(s, t, n, Row(true, Forwarding, Hop(a.source, a.next, a.path, a.newPath)))
              && t.signatures == s.signatures && t.kemOwner == s.kemOwner
  {
  }
}
