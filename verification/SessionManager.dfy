/** The in-memory session manager: its two indexes, the reliable states of live sessions, and the resend scan. */
module SessionManager {
  import opened Reliable
  import opened Wrappers

  datatype Session = Session(id: int, sessionId: string, scope: string)

  /** The reliable state of one session. */
  datatype Link = Link(scope: string, next: int, outbound: Outbox, inbox: Receiver)

  datatype Manager = Manager(byId: map<int, Session>, bySessionId: map<string, Session>, links: map<string, Link>,
      nextId: int)

  datatype ManagerError = AlreadyExists | SessionNotFound | Malformed(error: ParseError)

  const EMPTY_MANAGER := Manager(map[], map[], map[], 1)

  // ---------------------------------------------------------------- operations

  function Create(m: Manager, sessionId: string, scope: string): Result<Manager, ManagerError> {
    if sessionId in m.bySessionId then Err(AlreadyExists)
    else
      var s := Session(m.nextId, sessionId, scope);
      Ok(m.(byId := m.byId[m.nextId := s], bySessionId := m.bySessionId[sessionId := s], nextId := m.nextId + 1))
  }

  function Delete(m: Manager, sessionId: string): Manager {
    if sessionId !in m.bySessionId then m
    else m.(byId := m.byId - {m.bySessionId[sessionId].id}, bySessionId := m.bySessionId - {sessionId}, links :=
        m.links - {sessionId})
  }

  /** `_get_reliable_state`: made on first use. */
  function LinkOf(m: Manager, s: Session): Link {
    if s.sessionId in m.links then m.links[s.sessionId] else Link(s.scope, 1, map[], EMPTY_RECEIVER)
  }

  datatype Request = Request(sessionId: string, id: string, innerType: string, inner: string, now: int,
      retryAfter: int, maxAttempts: int)

  function Prepare(m: Manager, r: Request): Result<(Manager, Outbound), ManagerError> {
    if r.sessionId !in m.bySessionId then Err(SessionNotFound)
    else
      var link := LinkOf(m, m.bySessionId[r.sessionId]);
      var message := NewOutbound(Message(r.id, link.next, r.innerType, r.inner), r.now, r.retryAfter, r.maxAttempts);
      var grown := link.(next := link.next + 1, outbound := link.outbound[link.next := message]);
      Ok((m.(links := m.links[r.sessionId := grown]), message))
  }

  function WithOutbox(m: Manager, sessionId: string, out: Outbox): Manager
    requires sessionId in m.links
  {
    m.(links := m.links[sessionId := m.links[sessionId].(outbound := out)])
  }

  function Sent(m: Manager, sessionId: string, sequence: int, now: int): Manager {
    if sessionId !in m.links then m else WithOutbox(m, sessionId, MarkSent(m.links[sessionId].outbound, sequence, now))
  }

  function FailedFor(m: Manager, sessionId: string, sequence: int, now: int, reason: string): Manager {
    if sessionId !in m.links then m
        else WithOutbox(m, sessionId, MarkFailed(m.links[sessionId].outbound, sequence, now, reason))
  }

  function Acked(m: Manager, sessionId: string, sequence: int, id: string): Manager {
    if sessionId !in m.links then m else WithOutbox(m, sessionId, MarkAcked(m.links[sessionId].outbound, sequence, id))
  }

  /** A malformed payload raises after the state was made. */
  function Inbound(m: Manager, sessionId: string, p: Payload): (Manager, Result<Outcome, ManagerError>) {
    if sessionId !in m.bySessionId then (m, Err(SessionNotFound))
    else
      var link := LinkOf(m, m.bySessionId[sessionId]);
      var parsed := Parse(p);
      if parsed.Err? then (m.(links := m.links[sessionId := link]), Err(Malformed(parsed.error)))
      else
        var r := Receive(link.inbox, parsed.value);
        (m.(links := m.links[sessionId := link.(inbox := r.0)]), Ok(r.1))
  }

  /** What the resend scan does to one message; `retry` is the delay it resolved for it. */
  function Scanned(x: Outbound, now: int, retry: int): Outbound {
    if !x.Pending() then x
    else if x.attempts >= x.maxAttempts then x.(failedAt := Some(now), failureReason := "max_attempts_exceeded")
    else x.(retryAfter := retry)
  }

  predicate IsDue(x: Outbound, now: int, retry: int) {
    x.Pending() && x.attempts < x.maxAttempts && x.DueForSend(now, retry)
  }

  function ScannedBox(out: Outbox, sessionId: string, now: int, retry: (string, int) -> int): Outbox {
    map q | q in out :: Scanned(out[q], now, retry(sessionId, q))
  }

  function Scan(m: Manager, now: int, retry: (string, int) -> int): Manager {
    m.(links := map s | s in m.links :: m.links[s].(outbound := ScannedBox(m.links[s].outbound, s, now, retry)))
  }

  datatype Ticket = Ticket(sessionId: string, sequence: int)

  predicate Has(m: Manager, t: Ticket) {
    t.sessionId in m.links && t.sequence in m.links[t.sessionId].outbound
  }

  function At(m: Manager, t: Ticket): Outbound
    requires Has(m, t)
  {
    m.links[t.sessionId].outbound[t.sequence]
  }

  ghost predicate DueAt(m: Manager, t: Ticket, now: int, retry: (string, int) -> int) {
    Has(m, t) && IsDue(At(m, t), now, retry(t.sessionId, t.sequence))
  }

  // ---------------------------------------------------------------- the object

  class SessionManager {
    var byId: map<int, Session>
    var bySessionId: map<string, Session>
    var links: map<string, Link>
    var nextId: int

    constructor ()
      ensures State() == EMPTY_MANAGER
    {
      byId, bySessionId, links, nextId := map[], map[], map[], 1;
    }

    function State(): Manager
      reads this
    {
      Manager(byId, bySessionId, links, nextId)
    }

    method CreateSession(sessionId: string, scope: string) returns (r: Result<Session, ManagerError>)
      modifies this
      ensures var after := Create(old(State()), sessionId, scope);
              if after.Err? then State() == old(State()) && r == Err(after.error)
              else State() == after.value && sessionId in bySessionId && r == Ok(bySessionId[sessionId])
    {
      if sessionId in bySessionId {
        return Err(AlreadyExists);
      }
      var session := Session(nextId, sessionId, scope);
      byId := byId[session.id := session];
      bySessionId := bySessionId[sessionId := session];
      nextId := nextId + 1;
      r := Ok(session);
    }

    method DeleteSession(sessionId: string) returns (found: bool)
      modifies this
      ensures State() == Delete(old(State()), sessionId)
      ensures found <==> sessionId in old(bySessionId)
    {
      if sessionId !in bySessionId {
        return false;
      }
      var session := bySessionId[sessionId];
      bySessionId := bySessionId - {sessionId};
      byId := byId - {session.id};
      links := links - {sessionId};
      found := true;
    }

    method PrepareReliableOutbound(request: Request) returns (r: Result<Outbound, ManagerError>)
      modifies this
      ensures var after := Prepare(old(State()), request);
              if after.Err? then State() == old(State()) && r == Err(after.error)
              else State() == after.value.0 && r == Ok(after.value.1)
    {
      if request.sessionId !in bySessionId {
        return Err(SessionNotFound);
      }
      var link := LinkOf(State(), bySessionId[request.sessionId]);
      var message := NewOutbound(Message(request.id, link.next, request.innerType, request.inner), request.now,
                                 request.retryAfter, request.maxAttempts);
      link := link.(outbound := link.outbound[link.next := message]);
      link := link.(next := link.next + 1);
      links := links[request.sessionId := link];
      r := Ok(message);
    }

    method MarkReliableOutboundSent(sessionId: string, sequence: int, now: int) returns (marked: bool)
      modifies this
      ensures State() == Sent(old(State()), sessionId, sequence, now)
      ensures marked <==>
              Has(old(State()), Ticket(sessionId, sequence)) && At(old(State()), Ticket(sessionId, sequence)).Pending()
    {
      if sessionId !in links || sequence !in links[sessionId].outbound
          || !links[sessionId].outbound[sequence].Pending() {
        assert State() == Sent(State(), sessionId, sequence, now);
        return false;
      }
      var message := links[sessionId].outbound[sequence];
      message := message.(attempts := message.attempts + 1);
      message := message.(lastSentAt := Some(now));
      links := links[sessionId := links[sessionId].(outbound := links[sessionId].outbound[sequence := message])];
      marked := true;
    }

    method MarkReliableOutboundAcked(sessionId: string, sequence: int, id: string) returns (removed: bool)
      modifies this
      ensures State() == Acked(old(State()), sessionId, sequence, id)
      ensures removed <==> sessionId in old(links) && AckMatches(old(links)[sessionId].outbound, sequence, id)
    {
      if sessionId !in links || sequence !in links[sessionId].outbound
          || links[sessionId].outbound[sequence].message.id != id {
        assert State() == Acked(State(), sessionId, sequence, id);
        return false;
      }
      links := links[sessionId := links[sessionId].(outbound := links[sessionId].outbound - {sequence})];
      removed := true;
    }

    /** The session runtime's scan: gives up on what used all its attempts and lists what is due. */
    method ListDueReliableMessages(now: int, retry: (string, int) -> int) returns (due: set<Ticket>)
      modifies this`links
      ensures State() == Scan(old(State()), now, retry)
      ensures forall t :: t in due <==> DueAt(old(State()), t, now, retry)
    {
      ghost var before := State();
      var pending := PendingTickets(State());
      due := {};
      HalfwayStart(before, now, retry);
      while pending != {}
        invariant Halfway(before, State(), due, pending, now, retry)
        decreases |pending|
      {
        var t :| t in pending;
        HalfwayStep(before, State(), due, pending, t, now, retry);
        var listed := ScanMessage(t, now, retry(t.sessionId, t.sequence));
        due := if listed then due + {t} else due;
        pending := pending - {t};
      }
      HalfwayEnd(before, State(), due, now, retry);
    }

    /** One message of the scan: give up on it, or set its delay and see whether it is due. */
    method ScanMessage(t: Ticket, now: int, delay: int) returns (listed: bool)
      requires Has(State(), t) && At(State(), t).Pending()
      modifies this`links
      ensures State() == Replaced(old(State()), t, Scanned(At(old(State()), t), now, delay))
      ensures listed <==> IsDue(At(old(State()), t), now, delay)
    {
      var message := links[t.sessionId].outbound[t.sequence];
      if message.attempts >= message.maxAttempts {
        message := message.(failedAt := Some(now), failureReason := "max_attempts_exceeded");
        listed := false;
      } else {
        message := message.(retryAfter := delay);
        listed := message.DueForSend(now, delay);
      }
      links := links[t.sessionId := links[t.sessionId].(outbound :=
          links[t.sessionId].outbound[t.sequence := message])];
    }
  }

  function PendingTickets(m: Manager): (r: set<Ticket>)
    ensures forall t :: t in r <==> Has(m, t) && At(m, t).Pending()
  {
    set s, q | s in m.links && q in m.links[s].outbound && m.links[s].outbound[q].Pending() :: Ticket(s, q)
  }

  /** The scan has dealt with every message that is not in `pending` any more. */
  ghost predicate Halfway(before: Manager, current: Manager, due: set<Ticket>, pending: set<Ticket>, now: int,
                          retry: (string, int) -> int)
  {
    && SameShape(before, current)
    && (forall t :: t in pending ==> Has(before, t) && At(before, t).Pending())
    && (forall t :: Has(before, t) ==>
          && Has(current, t)
          && At(current, t) == if t in pending then At(before, t) else ScannedAt(before, t, now, retry))
    && (forall t :: t in due <==> t !in pending && DueAt(before, t, now, retry))
  }

  lemma HalfwayStart(m: Manager, now: int, retry: (string, int) -> int)
    ensures Halfway(m, m, {}, PendingTickets(m), now, retry)
  {
  }

  lemma HalfwayStep(before: Manager, current: Manager, due: set<Ticket>, pending: set<Ticket>, t: Ticket, now: int,
                    retry: (string, int) -> int)
    requires Halfway(before, current, due, pending, now, retry) && t in pending
    ensures Has(current, t) && At(current, t).Pending()
    ensures var x, delay := At(current, t), retry(t.sessionId, t.sequence);
            var next := Replaced(current, t, Scanned(x, now, delay));
            Halfway(before, next, if IsDue(x, now, delay) then due + {t} else due, pending - {t}, now, retry)
  {
    var next := Replaced(current, t, Scanned(At(current, t), now, retry(t.sessionId, t.sequence)));
    assert SameShape(before, next);
    forall u | Has(before, u) ensures Has(next, u) {
      assert Has(current, u);
    }
  }

  lemma HalfwayEnd(before: Manager, current: Manager, due: set<Ticket>, now: int, retry: (string, int) -> int)
    requires Halfway(before, current, due, {}, now, retry)
    ensures current == Scan(before, now, retry)
    ensures forall t :: t in due <==> DueAt(before, t, now, retry)
  {
    SameShapeScan(before, current, now, retry);
  }

  function ScannedAt(m: Manager, t: Ticket, now: int, retry: (string, int) -> int): Outbound
    requires Has(m, t)
  {
    Scanned(At(m, t), now, retry(t.sessionId, t.sequence))
  }

  function Replaced(m: Manager, t: Ticket, x: Outbound): (r: Manager)
    requires Has(m, t)
    ensures SameShape(m, r)
    ensures forall u :: Has(m, u) ==> At(r, u) == if u == t then x else At(m, u)
  {
    WithOutbox(m, t.sessionId, m.links[t.sessionId].outbound[t.sequence := x])
  }

  /** Two managers that may differ in what the outbound messages say, and in nothing else. */
  ghost predicate SameShape(m: Manager, n: Manager) {
    && n == m.(links := n.links) && n.links.Keys == m.links.Keys
    && forall s :: s in m.links ==> SameLinkShape(m.links[s], n.links[s])
  }

  ghost predicate SameLinkShape(a: Link, b: Link) {
    b == a.(outbound := b.outbound) && b.outbound.Keys == a.outbound.Keys
  }

  lemma SameShapeScan(m: Manager, n: Manager, now: int, retry: (string, int) -> int)
    requires SameShape(m, n) && forall t :: Has(m, t) ==> At(n, t) == ScannedAt(m, t, now, retry)
    ensures n == Scan(m, now, retry)
  {
    forall s | s in m.links ensures n.links[s] == Scan(m, now, retry).links[s] {
      var out := n.links[s].outbound;
      assert SameLinkShape(m.links[s], n.links[s]);
      forall q | q in out ensures out[q] == ScannedBox(m.links[s].outbound, s, now, retry)[q] {
        assert Has(m, Ticket(s, q)) && At(n, Ticket(s, q)) == out[q];
      }
      assert out == ScannedBox(m.links[s].outbound, s, now, retry);
    }
    assert n.links == Scan(m, now, retry).links;
  }

  // ---------------------------------------------------------------- every run of the manager

  datatype Event =
    | Creating(sessionId: string, scope: string)
    | Deleting(sessionId: string)
    | Preparing(request: Request)
    | Sending(ticket: Ticket, now: int, first: bool)
    | Dropping(ticket: Ticket, first: bool)
    | Acking(ticket: Ticket, id: string)
    | Failing(ticket: Ticket, now: int, reason: string)
    | Receiving(sessionId: string, payload: Payload)
    | Scanning(now: int, retry: (string, int) -> int)

  function Apply(m: Manager, e: Event): Manager {
    match e
    case Creating(s, scope) => var r := Create(m, s, scope); if r.Ok? then r.value else m
    case Deleting(s) => Delete(m, s)
    case Preparing(request) => var r := Prepare(m, request); if r.Ok? then r.value.0 else m
    case Sending(t, now, _) => Sent(m, t.sessionId, t.sequence, now)
    case Dropping(_, _) => m
    case Acking(t, id) => Acked(m, t.sessionId, t.sequence, id)
    case Failing(t, now, reason) => FailedFor(m, t.sessionId, t.sequence, now, reason)
    case Receiving(s, p) => Inbound(m, s, p).0
    case Scanning(now, retry) => Scan(m, now, retry)
  }

  /** The two indexes hold the same sessions, each once in either. */
  ghost predicate IndexesAgree(m: Manager) {
    && (forall i :: i in m.byId ==> && m.byId[i].id == i < m.nextId
                                    && m.byId[i].sessionId in m.bySessionId
                                        && m.bySessionId[m.byId[i].sessionId] == m.byId[i])
    && (forall s :: s in m.bySessionId ==> && m.bySessionId[s].sessionId == s
                                           && m.bySessionId[s].id in m.byId
                                               && m.byId[m.bySessionId[s].id] == m.bySessionId[s])
  }

  ghost predicate GoodLink(l: Link) {
    && l.next >= 1
    && forall q :: q in l.outbound ==> 1 <= q < l.next && l.outbound[q].message.sequence == q
  }

  ghost predicate Consistent(m: Manager) {
    && IndexesAgree(m)
    && (forall s :: s in m.links ==> s in m.bySessionId && GoodLink(m.links[s]))
  }

  /** A change of one link of a live session. */
  lemma LinkChangeIsConsistent(m: Manager, sessionId: string, link: Link)
    requires Consistent(m) && sessionId in m.bySessionId && GoodLink(link)
    ensures Consistent(m.(links := m.links[sessionId := link]))
  {
  }

  lemma ScanIsConsistent(m: Manager, now: int, retry: (string, int) -> int)
    requires Consistent(m)
    ensures Consistent(Scan(m, now, retry))
  {
  }

  lemma DeleteIsConsistent(m: Manager, sessionId: string)
    requires Consistent(m)
    ensures Consistent(Delete(m, sessionId))
  {
  }

  ghost predicate GoodBox(out: Outbox, next: int) {
    forall q :: q in out ==> 1 <= q < next && out[q].message.sequence == q
  }

  lemma MarksAreGood(out: Outbox, next: int, sequence: int, now: int, reason: string, id: string)
    requires GoodBox(out, next)
    ensures GoodBox(MarkSent(out, sequence, now), next) && GoodBox(MarkFailed(out, sequence, now, reason), next)
    ensures GoodBox(MarkAcked(out, sequence, id), next)
  {
  }

  /** A change of the outbound messages of one link. */
  lemma BoxChangeIsConsistent(m: Manager, sessionId: string, out: Outbox)
    requires Consistent(m) && sessionId in m.links && GoodBox(out, m.links[sessionId].next)
    ensures Consistent(WithOutbox(m, sessionId, out))
  {
    LinkChangeIsConsistent(m, sessionId, m.links[sessionId].(outbound := out));
  }

  lemma MarkingIsConsistent(m: Manager, e: Event)
    requires Consistent(m) && (e.Sending? || e.Acking? || e.Failing?)
    ensures Consistent(Apply(m, e))
  {
    var name, q := e.ticket.sessionId, e.ticket.sequence;
    if name in m.links {
      var out, next := m.links[name].outbound, m.links[name].next;
      match e {
        case Sending(_, now, _) =>
          MarksAreGood(out, next, q, now, "", "");
          BoxChangeIsConsistent(m, name, MarkSent(out, q, now));
        case Acking(_, id) =>
          MarksAreGood(out, next, q, 0, "", id);
          BoxChangeIsConsistent(m, name, MarkAcked(out, q, id));
        case Failing(_, now, reason) =>
          MarksAreGood(out, next, q, now, reason, "");
          BoxChangeIsConsistent(m, name, MarkFailed(out, q, now, reason));
      }
    }
  }

  lemma LinkingIsConsistent(m: Manager, e: Event)
    requires Consistent(m) && (e.Preparing? || e.Receiving?)
    ensures Consistent(Apply(m, e))
  {
    var name := if e.Preparing? then e.request.sessionId else e.sessionId;
    if name in m.bySessionId {
      assert GoodLink(LinkOf(m, m.bySessionId[name]));
      LinkChangeIsConsistent(m, name, Apply(m, e).links[name]);
    }
  }

  /** Every operation keeps the indexes one to one and reliable states only for live sessions. */
  lemma ApplyKeepsConsistent(m: Manager, e: Event)
    requires Consistent(m)
    ensures Consistent(Apply(m, e))
  {
    match e
    case Creating(s, scope) =>
    case Deleting(s) => DeleteIsConsistent(m, s);
    case Preparing(_) => LinkingIsConsistent(m, e);
    case Receiving(_, _) => LinkingIsConsistent(m, e);
    case Dropping(_, _) =>
    case Scanning(now, retry) => ScanIsConsistent(m, now, retry);
    case _ => MarkingIsConsistent(m, e);
  }
}
