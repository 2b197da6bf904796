/**
 * What a session manager holds, said by the events that led there: what was sent and when, what is due, what arrived.
 */
module SessionHistory {
  import opened Reliable
  import opened SessionManager
  import opened SessionRuns
  import opened Wrappers

  // ---------------------------------------------------------------- sends and their dates

  /** How often a message was sent, counted sends only, and when last. */
  datatype Trail = Trail(count: int, last: Option<int>)

  /** Event e counts a send of the message. */
  predicate Counts(m: Manager, e: Event, t: Ticket) {
    e.Sending? && e.ticket == t && Has(m, t) && At(m, t).Pending()
  }

  /** Event e makes the message. */
  predicate Makes(m: Manager, e: Event, t: Ticket) {
    IsPrepare(e, t.sessionId) && Live(m, t.sessionId) && NextNumber(m, t.sessionId) == t.sequence
  }

  function TrailOf(events: seq<Event>, t: Ticket): Trail {
    if events == [] then Trail(0, None)
    else
      var init, e := events[..|events| - 1], events[|events| - 1];
      var before := TrailOf(init, t);
      if Makes(Run(init), e, t) then Trail(0, None)
      else if Counts(Run(init), e, t) then Trail(before.count + 1, Some(e.now))
      else before
  }

  /** What was prepared, as it is stored. */
  lemma PreparedIsStored(m: Manager, r: Request)
    requires Consistent(m)
    ensures Prepare(m, r).Ok? <==> Live(m, r.sessionId)
    ensures Live(m, r.sessionId) ==>
              var t, (n, x) := Ticket(r.sessionId, NextNumber(m, r.sessionId)), Prepare(m, r).value;
              && !Has(m, t) && Has(n, t) && At(n, t) == x && x.Pending()
              && x.message == Message(r.id, t.sequence, r.innerType, r.inner)
              && (x.createdAt, x.retryAfter, x.maxAttempts) == (r.now, r.retryAfter, r.maxAttempts)
              && (x.attempts, x.lastSentAt) == (0, None)
  {
  }

  lemma TrailStep(m: Manager, e: Event, t: Ticket)
    requires Consistent(m) && Has(Apply(m, e), t)
    ensures Makes(m, e, t) <==> !Has(m, t)
    ensures !Has(m, t) ==> At(Apply(m, e), t).attempts == 0 && At(Apply(m, e), t).lastSentAt == None
    ensures Has(m, t) ==>
              var x, y := At(m, t), At(Apply(m, e), t);
              && y.attempts == x.attempts + One(Counts(m, e, t))
              && y.lastSentAt == if Counts(m, e, t) then Some(e.now) else x.lastSentAt
  {
  }

  /** A message says how often it was sent since it was made, and when last. */
  lemma {:induction false} MessageTellsItsTrail(events: seq<Event>, t: Ticket)
    requires Has(Run(events), t)
    ensures At(Run(events), t).attempts == TrailOf(events, t).count
    ensures At(Run(events), t).lastSentAt == TrailOf(events, t).last
  {
    var init, e := events[..|events| - 1], events[|events| - 1];
    RunIsConsistent(init);
    TrailStep(Run(init), e, t);
    if Has(Run(init), t) {
      MessageTellsItsTrail(init, t);
    }
  }

  /**
   * In every run a scan lists a message exactly if it is there and neither given up nor acknowledged, was sent less
   * often than its limit allows, and was never sent, or last at least the delay before the scan.
   */
  lemma ScanListsExactly(events: seq<Event>, t: Ticket, now: int, retry: (string, int) -> int)
    ensures t in DueTickets(Run(events), now, retry) <==>
            && Has(Run(events), t) && At(Run(events), t).failedAt.None? && At(Run(events), t).ackedAt.None?
            && var trail := TrailOf(events, t);
            && trail.count < At(Run(events), t).maxAttempts
            && (trail.last.None? || now >= trail.last.value + retry(t.sessionId, t.sequence))
  {
    if Has(Run(events), t) {
      MessageTellsItsTrail(events, t);
    }
  }

  // ---------------------------------------------------------------- what an event leaves alone

  /** A scan gives up on exactly the pending messages that used their attempts, and changes nothing else but delays. */
  lemma ScanGivesUp(m: Manager, now: int, retry: (string, int) -> int, t: Ticket)
    ensures Has(Scan(m, now, retry), t) <==> Has(m, t)
    ensures Has(m, t) ==>
              var x, y := At(m, t), At(Scan(m, now, retry), t);
              if x.Pending() && x.attempts >= x.maxAttempts
              then y == x.(failedAt := Some(now), failureReason := "max_attempts_exceeded") && !y.Pending()
              else if x.Pending() then
                y.retryAfter == retry(t.sessionId, t.sequence) && y == x.(retryAfter := y.retryAfter)
              else y == x
  {
  }

  /** An acknowledgement with the right id takes its message away; a pending message that fails is not pending. */
  lemma TicketEventsSettle(m: Manager, e: Event, t: Ticket)
    requires e.Acking? || e.Failing? || e.Sending?
    ensures t != e.ticket ==> (Has(Apply(m, e), t) <==> Has(m, t)) && (Has(m, t) ==> At(Apply(m, e), t) == At(m, t))
    ensures e.Acking? ==> (Has(Apply(m, e), e.ticket) <==> Has(m, e.ticket) && At(m, e.ticket).message.id != e.id)
    ensures e.Failing? || e.Sending? ==> (Has(Apply(m, e), e.ticket) <==> Has(m, e.ticket))
    ensures Has(m, e.ticket) && !At(m, e.ticket).Pending() && Has(Apply(m, e), e.ticket) ==>
              At(Apply(m, e), e.ticket) == At(m, e.ticket)
    ensures e.Failing? && Has(m, e.ticket) && At(m, e.ticket).Pending() ==>
              At(Apply(m, e), e.ticket) == At(m, e.ticket).(failedAt := Some(e.now), failureReason := e.reason)
  {
  }

  /** The session that an event is about; a scan is about all. */
  function About(e: Event): Option<string> {
    match e
    case Creating(s, _) => Some(s)
    case Deleting(s) => Some(s)
    case Preparing(r) => Some(r.sessionId)
    case Sending(t, _, _) => Some(t.sessionId)
    case Dropping(t, _) => Some(t.sessionId)
    case Acking(t, _) => Some(t.sessionId)
    case Failing(t, _, _) => Some(t.sessionId)
    case Receiving(s, _) => Some(s)
    case Scanning(_, _) => None
  }

  /** Sessions do not touch each other: an event about one leaves every other as it was. */
  lemma SessionsAreApart(m: Manager, e: Event, name: string)
    requires Consistent(m) && About(e).Some? && About(e) != Some(name)
    ensures var n := Apply(m, e);
            && (Live(n, name) <==> Live(m, name)) && (Live(m, name) ==> n.bySessionId[name] == m.bySessionId[name])
            && (Live(m, name) ==> n.byId[m.bySessionId[name].id] == m.bySessionId[name])
            && (name in n.links <==> name in m.links) && (name in m.links ==> n.links[name] == m.links[name])
  {
    ApplyKeepsConsistent(m, e);
  }

  /** A new session is live, has the scope asked for and an id that no session had, and nothing sent or received. */
  lemma CreatedIsNew(m: Manager, name: string, scope: string)
    requires Consistent(m)
    ensures Create(m, name, scope).Ok? <==> !Live(m, name)
    ensures !Live(m, name) ==>
              var n := Create(m, name, scope).value;
              && Live(n, name) && n.bySessionId[name].scope == scope && n.bySessionId[name].id !in m.byId
              && LinkOf(n, n.bySessionId[name]) == Link(scope, 1, map[], EMPTY_RECEIVER)
  {
  }

  // ---------------------------------------------------------------- what arrived

  /** The messages that reached a name since its session was made, the malformed ones left out. */
  function ReceivedSince(events: seq<Event>, name: string): seq<Message> {
    if events == [] then []
    else
      var init, e := events[..|events| - 1], events[|events| - 1];
      if e == Deleting(name) || (IsCreate(e, name) && !Live(Run(init), name)) then []
      else if e.Receiving? && e.sessionId == name && Live(Run(init), name) && Parse(e.payload).Ok?
      then ReceivedSince(init, name) + [Parse(e.payload).value]
      else ReceivedSince(init, name)
  }

  function InboxOf(m: Manager, name: string): Receiver
    requires Live(m, name)
  {
    LinkOf(m, m.bySessionId[name]).inbox
  }

  lemma InboxStep(m: Manager, e: Event, name: string)
    requires Consistent(m) && Live(Apply(m, e), name)
    ensures !Live(m, name) ==> InboxOf(Apply(m, e), name) == EMPTY_RECEIVER && IsCreate(e, name)
    ensures Live(m, name) ==>
              InboxOf(Apply(m, e), name) ==
              if e.Receiving? && e.sessionId == name && Parse(e.payload).Ok?
              then Receive(InboxOf(m, name), Parse(e.payload).value).0 else InboxOf(m, name)
  {
  }

  lemma ReceiveAllOfMore(arrivals: seq<Message>, m: Message)
    ensures var r, more := ReceiveAll(arrivals), Receive(ReceiveAll(arrivals).0, m);
            ReceiveAll(arrivals + [m]) == (more.0, r.1 + more.1.deliveries)
  {
    assert (arrivals + [m])[..|arrivals|] == arrivals;
  }

  /** In every run the receiver of a live session is what its arrivals make of it, in their order. */
  lemma {:induction false} InboxIsOfArrivals(events: seq<Event>, name: string)
    requires Live(Run(events), name)
    ensures InboxOf(Run(events), name) == ReceiveAll(ReceivedSince(events, name)).0
  {
    var init, e := events[..|events| - 1], events[|events| - 1];
    RunIsConsistent(init);
    InboxStep(Run(init), e, name);
    if Live(Run(init), name) {
      InboxIsOfArrivals(init, name);
      if e.Receiving? && e.sessionId == name && Parse(e.payload).Ok? {
        ReceiveAllOfMore(ReceivedSince(init, name), Parse(e.payload).value);
      }
    }
  }

  /** What an arrival hands to the application is what it adds to the deliveries of all arrivals of its session. */
  lemma ArrivalDelivers(events: seq<Event>, name: string, p: Payload)
    ensures var m, r := Run(events), Inbound(Run(events), name, p);
            && (r.1 == Err(SessionNotFound) <==> !Live(m, name))
            && (Live(m, name) && Parse(p).Err? ==> r.1 == Err(Malformed(Parse(p).error)))
            && (if Live(m, name) then name in r.0.links else r.0 == m)
            && (r.1.Ok? <==> Live(m, name) && Parse(p).Ok?)
            && (r.1.Ok? ==>
                  var arrivals := ReceivedSince(events, name);
                  ReceiveAll(arrivals + [Parse(p).value]).1 == ReceiveAll(arrivals).1 + r.1.value.deliveries)
  {
    if Live(Run(events), name) && Parse(p).Ok? {
      InboxIsOfArrivals(events, name);
      ReceiveAllOfMore(ReceivedSince(events, name), Parse(p).value);
    }
  }

  /**
   * In every run of the manager: if what reached a live session was sent by an honest peer, in whatever order and
   * however often, the session has delivered the peer's messages up to the first that is missing.
   */
  lemma SessionDeliversItsStream(events: seq<Event>, name: string, sent: seq<Message>)
    requires Live(Run(events), name) && Stream(sent)
    requires forall m :: m in ReceivedSince(events, name) ==> m in sent
    ensures var arrivals := ReceivedSince(events, name);
            && Canonical(InboxOf(Run(events), name), sent, Sequences(arrivals))
            && ReceiveAll(arrivals).1 == sent[..InboxOf(Run(events), name).next - 1]
  {
    InboxIsOfArrivals(events, name);
    ArrivalsGiveCanonicalState(sent, ReceivedSince(events, name));
  }
}
