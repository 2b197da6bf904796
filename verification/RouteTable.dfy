/** The `RouteResolution` table of one node: rows in order of their ids, and queries for the newest valid match. */
module RouteTable {
  import opened Crypto
  import opened Wrappers

  datatype Status =
    | Forwarding | PendingValidation | PendingPingValidation | PendingKemOffer | PendingFinalValidation
    | Active | Invalid

  /** What the final node remembers of the validation request it answered with a ping. */
  datatype Context = Context(
    secret: Secret, finalPath: PathId, virtualNode: Node, virtualSignature: Signature,
    physicalSignature: Signature, publicSignature: Signature, expectedTtl: int, pingId: nat, pingSentAt: int)

  /** What the initiator commits to when it answers a key offer. */
  datatype Claim = Claim(virtualNode: Node, finalPath: PathId, virtualSignature: Signature, secret: Secret)

  datatype Detail =
    | Hop(fromNode: Node, toNode: Node, received: PathId, generated: PathId)
    | Endpoint(previous: Node, routePath: PathId, endpointNonce: nat, kemKey: nat, context: Option<Context>)
    | Initiator(firstHop: Node, finalNode: Node, initial: PathId, nonce: nat, expectedTtl: Option<int>,
                virtualNode: Option<Node>, finalPath: Option<PathId>, virtualSignature: Option<Signature>,
                secret: Option<Secret>)

  datatype Row = Row(valid: bool, status: Status, detail: Detail)

  /** The columns that no update changes. */
  function Identity(row: Row): Detail {
    match row.detail
    case Hop(_, _, _, _) => row.detail
    case Endpoint(previous, routePath, nonce, kemKey, _) => Endpoint(previous, routePath, nonce, kemKey, None)
    case Initiator(firstHop, finalNode, initial, nonce, ttl, _, _, _, _) =>
      Initiator(firstHop, finalNode, initial, nonce, ttl, None, None, None, None)
  }

  datatype Query =
    | ByReceived(path: PathId)
    | ByGenerated(path: PathId)
    | HopByEither(path: PathId)
    | EndpointBy(path: PathId)
    | InitiatorBy(path: PathId)

  predicate Matches(row: Row, q: Query) {
    var d := row.detail;
    match q
    case ByReceived(p) => d.Hop? && d.received == p
    case ByGenerated(p) => d.Hop? && d.generated == p
    case HopByEither(p) => d.Hop? && (d.received == p || d.generated == p)
    case EndpointBy(p) => d.Endpoint? && d.routePath == p
    case InitiatorBy(p) => d.Initiator? && d.initial == p
  }

  predicate Hit(row: Row, q: Query) {
    row.valid && Matches(row, q)
  }

  /** `ORDER BY id DESC LIMIT 1` over the valid matching rows. */
  function Newest(rows: seq<Row>, q: Query): (r: Option<nat>)
    ensures r.Some? ==> r.value < |rows| && Hit(rows[r.value], q)
    ensures r.Some? ==> forall j :: r.value < j < |rows| ==> !Hit(rows[j], q)
    ensures r.None? ==> forall j :: 0 <= j < |rows| ==> !Hit(rows[j], q)
  {
    if rows == [] then None
    else if Hit(rows[|rows| - 1], q) then Some(|rows| - 1)
    else Newest(rows[..|rows| - 1], q)
  }

  function Invalidated(row: Row): Row {
    row.(valid := false, status := Invalid)
  }

  function Invalidate(rows: seq<Row>, q: Query): (r: seq<Row>)
    ensures SameRows(rows, r)
  {
    match Newest(rows, q)
    case None => rows
    case Some(i) => rows[i := Invalidated(rows[i])]
  }

  function SetStatus(rows: seq<Row>, q: Query, status: Status): (r: seq<Row>)
    ensures SameRows(rows, r)
  {
    match Newest(rows, q)
    case None => rows
    case Some(i) => rows[i := rows[i].(status := status)]
  }

  /** The columns of an initiator row that answering a key offer fills in. */
  function Claimed(d: Detail, claim: Claim): Detail
    requires d.Initiator?
  {
    d.(virtualNode := Some(claim.virtualNode), finalPath := Some(claim.finalPath),
       virtualSignature := Some(claim.virtualSignature), secret := Some(claim.secret))
  }

  function SetClaim(rows: seq<Row>, path: PathId, claim: Claim): (r: seq<Row>)
    ensures SameRows(rows, r)
  {
    match Newest(rows, InitiatorBy(path))
    case None => rows
    case Some(i) => rows[i := Row(true, PendingFinalValidation, Claimed(rows[i].detail, claim))]
  }

  function SetActive(rows: seq<Row>, path: PathId, finalPath: PathId, signature: Signature): (r: seq<Row>)
    ensures SameRows(rows, r)
  {
    match Newest(rows, InitiatorBy(path))
    case None => rows
    case Some(i) =>
      rows[i := Row(true, Active, rows[i].detail.(finalPath := Some(finalPath), virtualSignature := Some(signature)))]
  }

  function SetContext(rows: seq<Row>, path: PathId, context: Context): (r: seq<Row>)
    ensures SameRows(rows, r)
  {
    match Newest(rows, EndpointBy(path))
    case None => rows
    case Some(i) => rows[i := Row(true, PendingPingValidation, rows[i].detail.(context := Some(context)))]
  }

  /** No update moves a row, changes its identity, or makes an invalid row valid again. */
  ghost predicate SameRows(before: seq<Row>, after: seq<Row>) {
    && |before| == |after|
    && forall i :: 0 <= i < |before| ==>
         && Identity(after[i]) == Identity(before[i])
         && (after[i].valid ==> before[i].valid)
  }

  lemma InvalidateHits(rows: seq<Row>, q: Query, i: nat)
    requires i < |rows|
    requires forall j :: 0 <= j < |rows| && j != i ==> !Hit(rows[j], q)
    ensures rows[i].valid && Matches(rows[i], q) ==> Invalidate(rows, q) == rows[i := Invalidated(rows[i])]
    ensures !(rows[i].valid && Matches(rows[i], q)) ==> Invalidate(rows, q) == rows
  {
  }

  /** The service as the source has it: every method changes rows of one table in place. */
  class RouteService {
    var rows: seq<Row>

    constructor ()
      ensures rows == []
    {
      rows := [];
    }

    method CreateHopResolution(fromNode: Node, toNode: Node, received: PathId, generated: PathId) returns (row: Row)
      modifies this
      ensures row == Row(true, Forwarding, Hop(fromNode, toNode, received, generated))
      ensures rows == old(rows) + [row]
      ensures Newest(rows, ByReceived(received)) == Some(|old(rows)|)
      ensures Newest(rows, ByGenerated(generated)) == Some(|old(rows)|)
    {
      row := Row(true, Forwarding, Hop(fromNode, toNode, received, generated));
      rows := rows + [row];
    }

    method CreateEndpointResolution(previous: Node, nonce: nat, routePath: PathId, kemKey: nat) returns (row: Row)
      modifies this
      ensures row == Row(true, PendingValidation, Endpoint(previous, routePath, nonce, kemKey, None))
      ensures rows == old(rows) + [row]
      ensures Newest(rows, EndpointBy(routePath)) == Some(|old(rows)|)
    {
      row := Row(true, PendingValidation, Endpoint(previous, routePath, nonce, kemKey, None));
      rows := rows + [row];
    }

    method CreateInitiatorResolution(firstHop: Node, initial: PathId, finalNode: Node, expectedTtl: Option<int>,
                                     nonce: nat, virtualNode: Option<Node>)
      returns (row: Row)
      modifies this
      ensures row == Row(true, PendingKemOffer, Initiator(firstHop, finalNode, initial, nonce, expectedTtl,
          virtualNode, None, None, None))
      ensures rows == old(rows) + [row]
      ensures Newest(rows, InitiatorBy(initial)) == Some(|old(rows)|)
    {
      row := Row(true, PendingKemOffer, Initiator(firstHop, finalNode, initial, nonce, expectedTtl, virtualNode, None,
          None, None));
      rows := rows + [row];
    }

    /** One method for the three invalidations of the source, which differ in the query only. */
    method InvalidateResolution(q: Query) returns (row: Option<Row>)
      modifies this
      ensures rows == Invalidate(old(rows), q)
      ensures row.None? <==> Newest(old(rows), q).None?
      ensures row.Some? ==> row.value == Invalidated(old(rows)[Newest(old(rows), q).value])
      ensures SameRows(old(rows), rows)
    {
      var found := Newest(rows, q);
      if found.None? {
        return None;
      }
      rows := rows[found.value := Invalidated(rows[found.value])];
      row := Some(rows[found.value]);
    }

    method UpdateInitiatorValidationPayload(initial: PathId, claim: Claim) returns (found: bool)
      modifies this
      ensures rows == SetClaim(old(rows), initial, claim)
      ensures found <==> Newest(old(rows), InitiatorBy(initial)).Some?
      ensures SameRows(old(rows), rows)
    {
      var at := Newest(rows, InitiatorBy(initial));
      found := at.Some?;
      if found {
        rows := rows[at.value := Row(true, PendingFinalValidation, Claimed(rows[at.value].detail, claim))];
      }
    }

    method MarkInitiatorActive(initial: PathId, finalPath: PathId, signature: Signature) returns (found: bool)
      modifies this
      ensures rows == SetActive(old(rows), initial, finalPath, signature)
      ensures found <==> Newest(old(rows), InitiatorBy(initial)).Some?
      ensures SameRows(old(rows), rows)
    {
      var at := Newest(rows, InitiatorBy(initial));
      found := at.Some?;
      if found {
        var d := rows[at.value].detail.(finalPath := Some(finalPath), virtualSignature := Some(signature));
        rows := rows[at.value := Row(true, Active, d)];
      }
    }

    method UpdateEndpointValidationContext(routePath: PathId, context: Context) returns (found: bool)
      modifies this
      ensures rows == SetContext(old(rows), routePath, context)
      ensures found <==> Newest(old(rows), EndpointBy(routePath)).Some?
      ensures SameRows(old(rows), rows)
    {
      var at := Newest(rows, EndpointBy(routePath));
      found := at.Some?;
      if found {
        rows := rows[at.value := Row(true, PendingPingValidation, rows[at.value].detail.(context := Some(context)))];
      }
    }

    method MarkEndpointActive(routePath: PathId) returns (row: Option<Row>)
      modifies this
      ensures rows == SetStatus(old(rows), EndpointBy(routePath), Active)
      ensures row.Some? <==> Newest(old(rows), EndpointBy(routePath)).Some?
      ensures row.Some? ==> row.value == rows[Newest(old(rows), EndpointBy(routePath)).value]
      ensures SameRows(old(rows), rows)
    {
      var at := Newest(rows, EndpointBy(routePath));
      if at.None? {
        return None;
      }
      rows := rows[at.value := rows[at.value].(status := Active)];
      row := Some(rows[at.value]);
    }
  }
}
