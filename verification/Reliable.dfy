/** Reliable sessions: numbering on the way out, buffering and in-order delivery on the way in. */
module Reliable {
  import opened Wrappers

  /** A value found under a key of the JSON object that arrives from the network. */
  datatype Field = Absent | Text(text: string) | Number(number: int) | Truth(truth: bool) | Object(content: string)

  datatype Payload = Payload(messageId: Field, sequence: Field, innerType: Field, inner: Field)

  datatype Message = Message(id: string, sequence: int, innerType: string, inner: string)

  datatype ParseError = IdRequired | SequenceInvalid | TypeRequired | InnerNotObject

  predicate WellFormed(m: Message) {
    m.id != "" && m.sequence >= 1 && m.innerType != ""
  }

  function ToPayload(m: Message): Payload {
    Payload(Text(m.id), Number(m.sequence), Text(m.innerType), Object(m.inner))
  }

  /** In Python a truth value is an integer too: true counts as 1 and false as 0. */
  function AsNumber(f: Field): Field {
    if f.Truth? then Number(if f.truth then 1 else 0) else f
  }

  /**
   * Accepts exactly the printed form of well-formed messages, up to the reading of truth values, and inverts the
   * printing.
   */
  function Parse(p: Payload): (r: Result<Message, ParseError>)
    ensures r.Ok? ==> WellFormed(r.value) && ToPayload(r.value) == p.(sequence := AsNumber(p.sequence))
    ensures r.Err? ==> forall m :: WellFormed(m) ==> ToPayload(m) != p.(sequence := AsNumber(p.sequence))
  {
    var sequence := AsNumber(p.sequence);
    if !p.messageId.Text? || p.messageId.text == "" then Err(IdRequired)
    else if !sequence.Number? || sequence.number < 1 then Err(SequenceInvalid)
    else if !p.innerType.Text? || p.innerType.text == "" then Err(TypeRequired)
    else if !p.inner.Object? then Err(InnerNotObject)
    else Ok(Message(p.messageId.text, sequence.number, p.innerType.text, p.inner.content))
  }

  /** Which of the four checks fails first; true is the number one and false is no number at all. */
  lemma ParseFailsExactly(p: Payload)
    ensures Parse(p) == Err(IdRequired) <==> !p.messageId.Text? || p.messageId.text == ""
    ensures Parse(p) == Err(SequenceInvalid) <==>
            && p.messageId.Text? && p.messageId.text != ""
            && p.sequence != Truth(true) && (!p.sequence.Number? || p.sequence.number <= 0)
    ensures Parse(p) == Err(TypeRequired) <==>
            && p.messageId.Text? && p.messageId.text != ""
            && (p.sequence == Truth(true) || (p.sequence.Number? && p.sequence.number > 0))
            && (!p.innerType.Text? || p.innerType.text == "")
    ensures Parse(p).Ok? && p.sequence.Truth? ==> Parse(p).value.sequence == 1
  {
  }

  // ---------------------------------------------------------------- receiving

  /** The inbound half of a session state. */
  datatype Receiver = Receiver(next: int, buffer: map<int, Message>, delivered: set<string>)

  datatype Outcome = Outcome(deliveries: seq<Message>, duplicate: bool, buffered: bool)

  datatype AckPayload = AckPayload(id: string, sequence: int)

  const EMPTY_RECEIVER := Receiver(1, map[], {})

  /** Takes the consecutive run that starts at `next` out of the buffer. */
  function Drain(r: Receiver): (Receiver, seq<Message>)
    decreases |r.buffer|
  {
    if r.next !in r.buffer then (r, [])
    else
      var m := r.buffer[r.next];
      var rest := Drain(Receiver(r.next + 1, r.buffer - {r.next}, r.delivered + {m.id}));
      (rest.0, if m.id in r.delivered then rest.1 else [m] + rest.1)
  }

  function Receive(r: Receiver, m: Message): (Receiver, Outcome) {
    if m.id in r.delivered || m.sequence < r.next then (r, Outcome([], true, false))
    else if m.sequence > r.next then
      (if m.sequence in r.buffer then r else r.(buffer := r.buffer[m.sequence := m]), Outcome([], false, true))
    else
      var drained := Drain(r.(buffer := r.buffer[m.sequence := m]));
      (drained.0, Outcome(drained.1, false, false))
  }

  /** All the arrivals of a session, oldest first, with everything they delivered. */
  function ReceiveAll(arrivals: seq<Message>): (Receiver, seq<Message>) {
    if arrivals == [] then (EMPTY_RECEIVER, [])
    else
      var before := ReceiveAll(arrivals[..|arrivals| - 1]);
      var last := Receive(before.0, arrivals[|arrivals| - 1]);
      (last.0, before.1 + last.1.deliveries)
  }

  // ---------------------------------------------------------------- sending

  datatype Outbound = Outbound(
    message: Message, createdAt: int, retryAfter: int, maxAttempts: int,
    attempts: int, lastSentAt: Option<int>, ackedAt: Option<int>, failedAt: Option<int>, failureReason: string)
  {
    predicate Pending() { ackedAt.None? && failedAt.None? }

    predicate DueForSend(now: int, retry: int) {
      Pending() && (lastSentAt.None? || lastSentAt.value + retry <= now)
    }
  }

  function NewOutbound(m: Message, now: int, retryAfter: int, maxAttempts: int): Outbound {
    Outbound(m, now, retryAfter, maxAttempts, 0, None, None, None, "")
  }

  type Outbox = map<int, Outbound>

  function MarkSent(out: Outbox, sequence: int, now: int): Outbox {
    if sequence in out && out[sequence].Pending()
    then out[sequence := out[sequence].(attempts := out[sequence].attempts + 1, lastSentAt := Some(now))]
    else out
  }

  function MarkFailed(out: Outbox, sequence: int, now: int, reason: string): Outbox {
    if sequence in out && out[sequence].Pending()
    then out[sequence := out[sequence].(failedAt := Some(now), failureReason := reason)]
    else out
  }

  predicate AckMatches(out: Outbox, sequence: int, id: string) {
    sequence in out && out[sequence].message.id == id
  }

  function MarkAcked(out: Outbox, sequence: int, id: string): Outbox {
    if AckMatches(out, sequence, id) then out - {sequence} else out
  }

  class ReliableSessionState {
    var nextOutbound: int
    var outbound: Outbox
    var nextExpected: int
    var buffer: map<int, Message>
    var delivered: set<string>

    constructor ()
      ensures nextOutbound == 1 && outbound == map[] && Inbox() == EMPTY_RECEIVER
    {
      nextOutbound, outbound, nextExpected, buffer, delivered := 1, map[], 1, map[], {};
    }

    ghost function Inbox(): Receiver
      reads this
    {
      Receiver(nextExpected, buffer, delivered)
    }

    /** The identifier and the clock reading are the caller's: uuid4 and the wall clock in the source. */
    method BuildOutbound(id: string, innerType: string, inner: string, now: int, retryAfter: int, maxAttempts: int)
      returns (message: Outbound)
      modifies `nextOutbound, `outbound
      ensures message == NewOutbound(Message(id, old(nextOutbound), innerType, inner), now, retryAfter, maxAttempts)
      ensures outbound == old(outbound)[old(nextOutbound) := message]
      ensures nextOutbound == old(nextOutbound) + 1
    {
      message := NewOutbound(Message(id, nextOutbound, innerType, inner), now, retryAfter, maxAttempts);
      outbound := outbound[message.message.sequence := message];
      nextOutbound := nextOutbound + 1;
    }

    /** A malformed payload raises and changes nothing; every well-formed one is acknowledged. */
    method ReceiveReliablePayload(p: Payload) returns (r: Result<(AckPayload, Outcome), ParseError>)
      modifies `nextExpected, `buffer, `delivered
      ensures r.Err? <==> Parse(p).Err?
      ensures r.Err? ==> r.error == Parse(p).error && Inbox() == old(Inbox())
      ensures r.Ok? ==>
                var m := Parse(p).value;
                && r.value.0 == AckPayload(m.id, m.sequence)
                && (Inbox(), r.value.1) == Receive(old(Inbox()), m)
    {
      var parsed := Parse(p);
      if parsed.Err? {
        return Err(parsed.error);
      }
      var m := parsed.value;
      var ack := AckPayload(m.id, m.sequence);
      if m.id in delivered {
        return Ok((ack, Outcome([], true, false)));
      }
      if m.sequence < nextExpected {
        return Ok((ack, Outcome([], true, false)));
      }
      if m.sequence > nextExpected {
        if m.sequence !in buffer {
          buffer := buffer[m.sequence := m];
        }
        return Ok((ack, Outcome([], false, true)));
      }
      buffer := buffer[m.sequence := m];
      var deliveries := DrainBuffer();
      r := Ok((ack, Outcome(deliveries, false, false)));
    }

    /** The loop that takes consecutive messages out of the buffer. */
    method DrainBuffer() returns (deliveries: seq<Message>)
      modifies `nextExpected, `buffer, `delivered
      ensures (Inbox(), deliveries) == Drain(old(Inbox()))
    {
      deliveries := [];
      ghost var start := Inbox();
      assert [] + Drain(start).1 == Drain(start).1;
      while nextExpected in buffer
        invariant Drained(start, Inbox(), deliveries)
        decreases |buffer|
      {
        var next := buffer[nextExpected];
        DrainStep(start, Inbox(), deliveries);
        buffer := buffer - {nextExpected};
        if next.id !in delivered {
          delivered := delivered + {next.id};
          deliveries := deliveries + [next];
        }
        nextExpected := nextExpected + 1;
      }
      assert deliveries + [] == deliveries;
    }
  }

  /** What is left to drain, after what was delivered, is what there was to drain. */
  ghost predicate Drained(start: Receiver, now: Receiver, deliveries: seq<Message>) {
    Drain(start) == (Drain(now).0, deliveries + Drain(now).1)
  }

  lemma DrainStep(start: Receiver, now: Receiver, deliveries: seq<Message>)
    requires Drained(start, now, deliveries) && now.next in now.buffer
    ensures var m := now.buffer[now.next];
            if m.id in now.delivered
            then Drained(start, Receiver(now.next + 1, now.buffer - {now.next}, now.delivered), deliveries)
            else Drained(start, Receiver(now.next + 1, now.buffer - {now.next}, now.delivered + {m.id}), deliveries
                + [m])
  {
    var m := now.buffer[now.next];
    var rest := Drain(Receiver(now.next + 1, now.buffer - {now.next}, now.delivered + {m.id}));
    assert m.id in now.delivered ==> now.delivered + {m.id} == now.delivered;
    assert deliveries + ([m] + rest.1) == (deliveries + [m]) + rest.1;
  }

  // ---------------------------------------------------------------- what a receiver's state means

  /** What an honest sender numbers: consecutive sequence numbers from 1 and pairwise different identifiers. */
  ghost predicate Stream(sent: seq<Message>) {
    && (forall i :: 0 <= i < |sent| ==> sent[i].sequence == i + 1)
    && (forall i, j :: 0 <= i < j < |sent| ==> sent[i].id != sent[j].id)
  }

  ghost predicate Numbers(sent: seq<Message>, arrived: set<int>) {
    forall k :: k in arrived ==> 1 <= k <= |sent|
  }

  ghost function Ids(sent: seq<Message>, count: int): set<string>
    requires 0 <= count <= |sent|
  {
    set m | m in sent[..count] :: m.id
  }

  /** The sent messages with numbers in `arrived` that are at least `from`. */
  ghost function Held(sent: seq<Message>, arrived: set<int>, from: int): map<int, Message>
    requires Numbers(sent, arrived)
  {
    map k | k in arrived && k >= from :: sent[k - 1]
  }

  /** The state of a receiver as a function of nothing but the set of numbers that arrived. */
  ghost predicate Canonical(r: Receiver, sent: seq<Message>, arrived: set<int>) {
    && Numbers(sent, arrived)
    && 1 <= r.next <= |sent| + 1
    && r.next !in arrived
    && (forall k :: 1 <= k < r.next ==> k in arrived)
    && r.buffer == Held(sent, arrived, r.next)
    && r.delivered == Ids(sent, r.next - 1)
  }

  lemma CanonicalIsUnique(r1: Receiver, r2: Receiver, sent: seq<Message>, arrived: set<int>)
    requires Canonical(r1, sent, arrived) && Canonical(r2, sent, arrived)
    ensures r1 == r2
  {
    assert r1.next == r2.next;
  }

  lemma HeldShrinks(sent: seq<Message>, arrived: set<int>, k: int)
    requires Numbers(sent, arrived)
    ensures Held(sent, arrived, k) - {k} == Held(sent, arrived, k + 1)
  {
  }

  lemma IdsGrow(sent: seq<Message>, count: int)
    requires Stream(sent) && 0 <= count < |sent|
    ensures Ids(sent, count + 1) == Ids(sent, count) + {sent[count].id}
    ensures sent[count].id !in Ids(sent, count)
  {
    assert sent[..count + 1] == sent[..count] + [sent[count]];
    forall m | m in sent[..count] ensures m.id != sent[count].id {
      var i :| 0 <= i < count && sent[i] == m;
    }
  }

  /** Canonical but for the fact that the expected message may itself be in the buffer. */
  ghost predicate Drainable(r: Receiver, sent: seq<Message>, arrived: set<int>) {
    && Numbers(sent, arrived)
    && 1 <= r.next <= |sent| + 1
    && (forall k :: 1 <= k < r.next ==> k in arrived)
    && r.buffer == Held(sent, arrived, r.next)
    && r.delivered == Ids(sent, r.next - 1)
  }

  function DrainOne(r: Receiver): Receiver
    requires r.next in r.buffer
  {
    Receiver(r.next + 1, r.buffer - {r.next}, r.delivered + {r.buffer[r.next].id})
  }

  lemma DrainOneIsDrainable(r: Receiver, sent: seq<Message>, arrived: set<int>)
    requires Stream(sent) && Drainable(r, sent, arrived) && r.next in r.buffer
    ensures r.next <= |sent| && Drainable(DrainOne(r), sent, arrived)
    ensures r.buffer[r.next] == sent[r.next - 1] && sent[r.next - 1].id !in r.delivered
  {
    HeldShrinks(sent, arrived, r.next);
    IdsGrow(sent, r.next - 1);
  }

  /** Draining gives the canonical state and delivers exactly what it passes over. */
  ghost predicate Drains(r: Receiver, sent: seq<Message>, arrived: set<int>) {
    && Canonical(Drain(r).0, sent, arrived)
    && 1 <= r.next <= Drain(r).0.next
    && Drain(r).1 == sent[r.next - 1..Drain(r).0.next - 1]
  }

  lemma DrainUnfolds(r: Receiver)
    requires r.next in r.buffer && r.buffer[r.next].id !in r.delivered
    ensures Drain(r) == (Drain(DrainOne(r)).0, [r.buffer[r.next]] + Drain(DrainOne(r)).1)
  {
  }

  lemma SliceFromFront(sent: seq<Message>, i: nat, j: nat)
    requires i < j <= |sent|
    ensures [sent[i]] + sent[i + 1..j] == sent[i..j]
  {
  }

  lemma DrainsFromOne(r: Receiver, sent: seq<Message>, arrived: set<int>)
    requires r.next in r.buffer && 1 <= r.next <= |sent| && Drains(DrainOne(r), sent, arrived)
    requires r.buffer[r.next] == sent[r.next - 1] && sent[r.next - 1].id !in r.delivered
    ensures Drains(r, sent, arrived)
  {
    DrainUnfolds(r);
    SliceFromFront(sent, r.next - 1, Drain(DrainOne(r)).0.next - 1);
  }

  lemma {:induction false} DrainDelivers(r: Receiver, sent: seq<Message>, arrived: set<int>)
    requires Stream(sent) && Drainable(r, sent, arrived)
    ensures Drains(r, sent, arrived)
    decreases |r.buffer|
  {
    if r.next in r.buffer {
      DrainOneIsDrainable(r, sent, arrived);
      DrainDelivers(DrainOne(r), sent, arrived);
      DrainsFromOne(r, sent, arrived);
    } else {
      assert r.next !in arrived;
    }
  }

  lemma HeldGrows(sent: seq<Message>, arrived: set<int>, from: int, s: int)
    requires Numbers(sent, arrived) && 1 <= s <= |sent| && s >= from
    ensures Held(sent, arrived + {s}, from) == Held(sent, arrived, from)[s := sent[s - 1]]
  {
  }

  lemma DeliveredIsBefore(r: Receiver, sent: seq<Message>, arrived: set<int>, m: Message)
    requires Stream(sent) && Canonical(r, sent, arrived) && m in sent
    ensures 1 <= m.sequence <= |sent| && sent[m.sequence - 1] == m
    ensures m.id in r.delivered ==> m.sequence < r.next
  {
    var i :| 0 <= i < |sent| && sent[i] == m;
    if m.id in r.delivered {
      var d :| d in sent[..r.next - 1] && d.id == m.id;
      var j :| 0 <= j < r.next - 1 && sent[j] == d;
      assert i == j;
    }
  }

  lemma BufferIsCanonical(r: Receiver, sent: seq<Message>, arrived: set<int>, m: Message)
    requires Canonical(r, sent, arrived) && r.next < m.sequence <= |sent| && sent[m.sequence - 1] == m
    ensures Canonical(if m.sequence in r.buffer then r else r.(buffer := r.buffer[m.sequence := m]), sent, arrived
        + {m.sequence})
  {
    HeldGrows(sent, arrived, r.next, m.sequence);
    assert m.sequence in r.buffer ==> r.buffer[m.sequence := m] == r.buffer;
  }

  /** One arrival of a sent message, new or repeated, in or out of order. */
  lemma ReceiveIsCanonical(r: Receiver, sent: seq<Message>, arrived: set<int>, m: Message)
    requires Stream(sent) && Canonical(r, sent, arrived)
    requires m in sent
    ensures Canonical(Receive(r, m).0, sent, arrived + {m.sequence})
    ensures r.next <= Receive(r, m).0.next
    ensures Receive(r, m).1.deliveries == sent[r.next - 1..Receive(r, m).0.next - 1]
  {
    var s := m.sequence;
    DeliveredIsBefore(r, sent, arrived, m);
    if s < r.next {
      assert arrived + {s} == arrived;
    } else {
      HeldGrows(sent, arrived, r.next, s);
      if s == r.next {
        DrainDelivers(r.(buffer := r.buffer[s := m]), sent, arrived + {s});
      } else {
        BufferIsCanonical(r, sent, arrived, m);
      }
    }
  }

  ghost function Sequences(arrivals: seq<Message>): set<int> {
    set m | m in arrivals :: m.sequence
  }

  lemma SequencesGrow(arrivals: seq<Message>, m: Message)
    ensures Sequences(arrivals + [m]) == Sequences(arrivals) + {m.sequence}
  {
    assert forall x :: x in arrivals + [m] <==> x in arrivals || x == m;
  }

  lemma EmptyIsCanonical(sent: seq<Message>)
    ensures Canonical(EMPTY_RECEIVER, sent, Sequences([]))
  {
    assert Sequences([]) == {};
    assert EMPTY_RECEIVER.buffer == Held(sent, {}, 1);
    assert Ids(sent, 0) == {};
  }

  lemma SlicesJoin(sent: seq<Message>, i: nat, j: nat)
    requires i <= j <= |sent|
    ensures sent[..i] + sent[i..j] == sent[..j]
  {
  }

  ghost predicate Delivers(sent: seq<Message>, arrivals: seq<Message>) {
    && Canonical(ReceiveAll(arrivals).0, sent, Sequences(arrivals))
    && ReceiveAll(arrivals).1 == sent[..ReceiveAll(arrivals).0.next - 1]
  }

  lemma OneMoreArrival(sent: seq<Message>, arrivals: seq<Message>, m: Message)
    requires Stream(sent) && Delivers(sent, arrivals) && m in sent
    ensures Delivers(sent, arrivals + [m])
  {
    var r := ReceiveAll(arrivals).0;
    assert (arrivals + [m])[..|arrivals|] == arrivals;
    ReceiveIsCanonical(r, sent, Sequences(arrivals), m);
    SequencesGrow(arrivals, m);
    SlicesJoin(sent, r.next - 1, Receive(r, m).0.next - 1);
  }

  /**
   * After any arrivals drawn from an honest stream the state is canonical and the deliveries are a prefix of the
   * stream.
   */
  lemma {:induction false} ArrivalsGiveCanonicalState(sent: seq<Message>, arrivals: seq<Message>)
    requires Stream(sent)
    requires forall m :: m in arrivals ==> m in sent
    ensures Delivers(sent, arrivals)
  {
    if arrivals == [] {
      EmptyIsCanonical(sent);
    } else {
      var init, last := arrivals[..|arrivals| - 1], arrivals[|arrivals| - 1];
      assert last in arrivals && forall m :: m in init ==> m in arrivals;
      ArrivalsGiveCanonicalState(sent, init);
      OneMoreArrival(sent, init, last);
      assert arrivals == init + [last];
    }
  }

  lemma DeliversDetermines(sent: seq<Message>, one: seq<Message>, other: seq<Message>)
    requires Delivers(sent, one) && Delivers(sent, other) && Sequences(one) == Sequences(other)
    ensures ReceiveAll(one) == ReceiveAll(other)
  {
    CanonicalIsUnique(ReceiveAll(one).0, ReceiveAll(other).0, sent, Sequences(one));
  }

  /** Order and repetition of arrivals do not matter, neither for the state nor for what was delivered. */
  lemma ArrivalOrderIsIrrelevant(sent: seq<Message>, one: seq<Message>, other: seq<Message>)
    requires Stream(sent)
    requires forall m :: m in one ==> m in sent
    requires forall m :: m in other ==> m in sent
    requires Sequences(one) == Sequences(other)
    ensures ReceiveAll(one) == ReceiveAll(other)
  {
    ArrivalsGiveCanonicalState(sent, one);
    ArrivalsGiveCanonicalState(sent, other);
    DeliversDetermines(sent, one, other);
  }

  lemma CanonicalWhenAllArrived(r: Receiver, sent: seq<Message>, arrived: set<int>)
    requires Canonical(r, sent, arrived) && forall k :: 1 <= k <= |sent| ==> k in arrived
    ensures r == Receiver(|sent| + 1, map[], Ids(sent, |sent|))
  {
    assert r.next == |sent| + 1;
    assert r.buffer == map[];
  }

  lemma AllArrived(sent: seq<Message>, arrivals: seq<Message>, k: int)
    requires Stream(sent) && (forall m :: m in sent ==> m in arrivals) && 1 <= k <= |sent|
    ensures k in Sequences(arrivals)
  {
    assert sent[k - 1] in sent && sent[k - 1].sequence == k;
  }

  /** Once every message of the stream has arrived at least once, the whole stream has been delivered. */
  lemma CompleteArrivalsDeliverEverything(sent: seq<Message>, arrivals: seq<Message>)
    requires Stream(sent)
    requires forall m :: m in arrivals <==> m in sent
    ensures ReceiveAll(arrivals) == (Receiver(|sent| + 1, map[], Ids(sent, |sent|)), sent)
  {
    ArrivalsGiveCanonicalState(sent, arrivals);
    forall k | 1 <= k <= |sent| ensures k in Sequences(arrivals) {
      AllArrived(sent, arrivals, k);
    }
    CanonicalWhenAllArrived(ReceiveAll(arrivals).0, sent, Sequences(arrivals));
    assert sent[..|sent|] == sent;
  }

  // ---------------------------------------------------------------- whatever arrives

  /** What holds without an honest sender: different identifiers delivered in rising order, later numbers held. */
  ghost predicate Tidy(r: Receiver, log: seq<Message>) {
    && r.next >= 1
    && r.delivered == Ids(log, |log|)
    && (forall i, j :: 0 <= i < j < |log| ==> log[i].id != log[j].id && log[i].sequence < log[j].sequence)
    && (forall m :: m in log ==> m.sequence < r.next)
    && (forall k :: k in r.buffer ==> k >= r.next && r.buffer[k].sequence == k)
  }

  function LogOne(r: Receiver, log: seq<Message>): seq<Message>
    requires r.next in r.buffer
  {
    if r.buffer[r.next].id in r.delivered then log else log + [r.buffer[r.next]]
  }

  lemma DrainGoesOn(r: Receiver, log: seq<Message>)
    requires r.next in r.buffer
    ensures Drain(r).0 == Drain(DrainOne(r)).0
    ensures log + Drain(r).1 == LogOne(r, log) + Drain(DrainOne(r)).1
  {
  }

  /** The expected message is taken out of the buffer, and delivered unless its identifier was delivered before. */
  lemma TidyDrainOne(r: Receiver, log: seq<Message>)
    requires Tidy(r, log) && r.next in r.buffer
    ensures Tidy(DrainOne(r), LogOne(r, log))
  {
    var m := r.buffer[r.next];
    if m.id !in r.delivered {
      assert (log + [m])[..|log| + 1] == log + [m] && log[..|log|] == log;
      forall i | 0 <= i < |log| ensures log[i].id != m.id {
        assert log[i] in log;
      }
      assert Ids(log + [m], |log| + 1) == Ids(log, |log|) + {m.id};
    } else {
      assert r.delivered + {m.id} == r.delivered;
    }
  }

  lemma {:induction false} TidyDrain(r: Receiver, log: seq<Message>)
    requires Tidy(r, log)
    ensures Tidy(Drain(r).0, log + Drain(r).1) && Drain(r).0.next !in Drain(r).0.buffer
    decreases |r.buffer|
  {
    if r.next in r.buffer {
      TidyDrainOne(r, log);
      TidyDrain(DrainOne(r), LogOne(r, log));
      DrainGoesOn(r, log);
    } else {
      assert log + [] == log;
    }
  }

  /**
   * Nothing is taken back: what was held is held, or it is below the expected number and its identifier was delivered.
   */
  ghost predicate Continues(r: Receiver, later: Receiver) {
    && r.next <= later.next && r.delivered <= later.delivered
    && forall k :: k in r.buffer ==>
         if k < later.next then r.buffer[k].id in later.delivered
         else k in later.buffer && later.buffer[k] == r.buffer[k]
  }

  lemma {:induction false} DrainContinues(r: Receiver)
    requires forall k :: k in r.buffer ==> k >= r.next
    ensures Continues(r, Drain(r).0)
    decreases |r.buffer|
  {
    if r.next in r.buffer {
      var one := DrainOne(r);
      DrainGoesOn(r, []);
      DrainContinues(one);
      forall k | k in r.buffer && k != r.next ensures k in one.buffer && one.buffer[k] == r.buffer[k] {
      }
    }
  }

  /** A message that has come is delivered or a copy of it is, or another with its number was; or one is held. */
  ghost predicate IsDealtWith(r: Receiver, m: Message) {
    m.sequence < r.next || m.sequence in r.buffer || m.id in r.delivered
  }

  /** Any message in any tidy state: nothing is lost, nothing comes twice, and a repetition changes nothing. */
  lemma ReceiveIsTidy(r: Receiver, log: seq<Message>, m: Message)
    requires Tidy(r, log) && r.next !in r.buffer
    ensures var (after, o) := Receive(r, m);
            && Tidy(after, log + o.deliveries) && after.next !in after.buffer
            && Continues(r, after) && IsDealtWith(after, m)
            && (o.duplicate <==> m.id in r.delivered || m.sequence < r.next)
            && (o.buffered <==> m.id !in r.delivered && m.sequence > r.next)
            && (o.deliveries != [] <==> !o.duplicate && !o.buffered)
            && (IsDealtWith(r, m) ==> after == r)
  {
    assert log + [] == log;
    if m.id !in r.delivered && m.sequence == r.next {
      var ready := r.(buffer := r.buffer[m.sequence := m]);
      TidyDrain(ready, log);
      DrainContinues(ready);
    }
  }

  ghost predicate AllDealtWith(r: Receiver, arrivals: seq<Message>) {
    forall m :: m in arrivals ==> IsDealtWith(r, m)
  }

  /** Only what arrived is handed on or held, and all numbers below the expected one arrived. */
  ghost predicate OnlyFrom(r: Receiver, log: seq<Message>, arrivals: seq<Message>) {
    && (forall m :: m in log ==> m in arrivals)
    && (forall k :: k in r.buffer ==> r.buffer[k] in arrivals)
    && (forall k :: 1 <= k < r.next ==> k in Sequences(arrivals))
  }

  lemma DrainOneIsFrom(r: Receiver, log: seq<Message>, arrivals: seq<Message>)
    requires Tidy(r, log) && OnlyFrom(r, log, arrivals) && r.next in r.buffer
    ensures OnlyFrom(DrainOne(r), LogOne(r, log), arrivals)
  {
    assert r.buffer[r.next].sequence in Sequences(arrivals);
  }

  lemma {:induction false} DrainIsFrom(r: Receiver, log: seq<Message>, arrivals: seq<Message>)
    requires Tidy(r, log) && OnlyFrom(r, log, arrivals)
    ensures OnlyFrom(Drain(r).0, log + Drain(r).1, arrivals)
    decreases |r.buffer|
  {
    if r.next in r.buffer {
      TidyDrainOne(r, log);
      DrainOneIsFrom(r, log, arrivals);
      DrainIsFrom(DrainOne(r), LogOne(r, log), arrivals);
      DrainGoesOn(r, log);
    } else {
      assert log + [] == log;
    }
  }

  lemma ReceiveIsFrom(r: Receiver, log: seq<Message>, arrivals: seq<Message>, m: Message)
    requires Tidy(r, log) && OnlyFrom(r, log, arrivals)
    ensures OnlyFrom(Receive(r, m).0, log + Receive(r, m).1.deliveries, arrivals + [m])
  {
    SequencesGrow(arrivals, m);
    assert log + [] == log;
    if m.id !in r.delivered && m.sequence == r.next {
      var ready := r.(buffer := r.buffer[m.sequence := m]);
      assert OnlyFrom(ready, log, arrivals + [m]);
      DrainIsFrom(ready, log, arrivals + [m]);
    }
  }

  lemma StillDealtWith(r: Receiver, later: Receiver, arrivals: seq<Message>)
    requires AllDealtWith(r, arrivals) && Continues(r, later)
    ensures AllDealtWith(later, arrivals)
  {
  }

  ghost predicate Whatever(arrivals: seq<Message>) {
    var (r, log) := ReceiveAll(arrivals);
    && Tidy(r, log) && r.next !in r.buffer && AllDealtWith(r, arrivals) && OnlyFrom(r, log, arrivals)
  }

  lemma WhateverGrows(arrivals: seq<Message>, m: Message)
    requires Whatever(arrivals)
    ensures Whatever(arrivals + [m])
  {
    var (r, log) := ReceiveAll(arrivals);
    assert (arrivals + [m])[..|arrivals|] == arrivals;
    ReceiveIsTidy(r, log, m);
    ReceiveIsFrom(r, log, arrivals, m);
    StillDealtWith(r, Receive(r, m).0, arrivals);
  }

  /**
   * Whatever arrives, from whomever: no identifier is delivered twice, numbers are delivered in rising order, all below
   * the expected number arrived, what is handed on or held arrived, and nothing that arrived is lost.
   */
  lemma {:induction false} WhateverArrives(arrivals: seq<Message>)
    ensures Whatever(arrivals)
  {
    if arrivals == [] {
      assert Ids([], 0) == {};
    } else {
      var init, last := arrivals[..|arrivals| - 1], arrivals[|arrivals| - 1];
      WhateverArrives(init);
      WhateverGrows(init, last);
      assert init + [last] == arrivals;
    }
  }
}
