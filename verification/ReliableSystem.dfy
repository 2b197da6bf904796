/** One direction of a reliable session: a sender, a receiver and a network that loses, repeats and reorders. */
module ReliableSystem {
  import opened Reliable
  import opened Wrappers

  datatype Packet = Data(message: Message) | Ack(id: string, sequence: int)

  /**
   * `nextOutbound` and `outbound` are the sender's half of a session state, `inbox` the receiver's.
   * The last four fields are history: what was submitted, what was handed to the application,
   * which numbers reached the receiver, and which numbers an acknowledgement took off the outbox.
   */
  datatype System = System(
    nextOutbound: int, outbound: Outbox, network: set<Packet>, inbox: Receiver,
    sent: seq<Message>, log: seq<Message>, arrived: set<int>, acked: set<int>)

  /**
   * A packet stays in the network when it is delivered, so it can be delivered again and in any order;
   * `Lose` takes it away. `Transmit` may repeat any message ever submitted, as a resend scan that
   * still holds an acknowledged or failed message does.
   */
  datatype Action =
    | Submit(id: string, innerType: string, inner: string, now: int, retryAfter: int, maxAttempts: int)
    | Transmit(message: Message)
    | RecordSent(sequence: int, now: int)
    | GiveUp(sequence: int, now: int, reason: string)
    | DeliverData(message: Message)
    | DeliverAck(id: string, sequence: int)
    | Lose(packet: Packet)

  predicate Init(s: System) {
    s == System(1, map[], {}, EMPTY_RECEIVER, [], [], {}, {})
  }

  predicate Enabled(s: System, a: Action) {
    match a
    // uuid4: an identifier is never drawn twice
    case Submit(id, _, _, _, _, _) => id != "" && forall m :: m in s.sent ==> m.id != id
    case Transmit(m) => m in s.sent
    case DeliverData(m) => Data(m) in s.network
    case DeliverAck(id, sequence) => Ack(id, sequence) in s.network
    case _ => true
  }

  /** A message that the receiver could read: it is received and acknowledged. */
  function Arrive(s: System, m: Message): System {
    var received := Receive(s.inbox, m);
    s.(inbox := received.0, log := s.log + received.1.deliveries,
       network := s.network + {Ack(m.id, m.sequence)}, arrived := s.arrived + {m.sequence})
  }

  function Step(s: System, a: Action): System
    requires Enabled(s, a)
  {
    match a
    case Submit(id, innerType, inner, now, retryAfter, maxAttempts) =>
      var m := Message(id, s.nextOutbound, innerType, inner);
      s.(nextOutbound := s.nextOutbound + 1,
         outbound := s.outbound[s.nextOutbound := NewOutbound(m, now, retryAfter, maxAttempts)],
         sent := s.sent + [m])
    case Transmit(m) => s.(network := s.network + {Data(m)})
    case RecordSent(sequence, now) => s.(outbound := MarkSent(s.outbound, sequence, now))
    case GiveUp(sequence, now, reason) => s.(outbound := MarkFailed(s.outbound, sequence, now, reason))
    case DeliverData(m) =>
      var parsed := Parse(ToPayload(m));
      if parsed.Err? then s else Arrive(s, parsed.value)
    case DeliverAck(id, sequence) =>
      s.(outbound := MarkAcked(s.outbound, sequence, id),
         acked := if AckMatches(s.outbound, sequence, id) then s.acked + {sequence} else s.acked)
    case Lose(packet) => s.(network := s.network - {packet})
  }

  ghost predicate IsRun(states: seq<System>, actions: seq<Action>) {
    && |states| == |actions| + 1
    && Init(states[0])
    && forall i {:trigger actions[i]} :: 0 <= i < |actions| ==>
        Enabled(states[i], actions[i]) && states[i + 1] == Step(states[i], actions[i])
  }

  // ---------------------------------------------------------------- the inductive invariant

  ghost predicate OutboxIsOfStream(s: System) {
    forall k :: k in s.outbound ==> 1 <= k <= |s.sent| && s.outbound[k].message == s.sent[k - 1]
  }

  ghost predicate PacketIsHonest(s: System, p: Packet) {
    match p
    case Data(m) => m in s.sent
    case Ack(id, sequence) => 1 <= sequence <= |s.sent| && sequence in s.arrived && s.sent[sequence - 1].id == id
  }

  ghost predicate Invariant(s: System) {
    && Stream(s.sent)
    && s.nextOutbound == |s.sent| + 1
    && OutboxIsOfStream(s)
    && (forall p :: p in s.network ==> PacketIsHonest(s, p))
    && Canonical(s.inbox, s.sent, s.arrived)
    && s.log == s.sent[..s.inbox.next - 1]
    && s.acked <= s.arrived
  }

  /** A longer stream leaves the receiver's state what it was. */
  lemma LongerStreamIsCanonical(r: Receiver, sent: seq<Message>, m: Message, arrived: set<int>)
    requires Canonical(r, sent, arrived)
    ensures Canonical(r, sent + [m], arrived)
  {
    var n := r.next - 1;
    assert (sent + [m])[..n] == sent[..n];
    assert Held(sent + [m], arrived, n + 1) == Held(sent, arrived, n + 1);
  }

  lemma SubmitKeepsInvariant(s: System, a: Action)
    requires Invariant(s) && Enabled(s, a) && a.Submit?
    ensures Invariant(Step(s, a))
    ensures s.sent <= Step(s, a).sent && s.log == Step(s, a).log
  {
    var t := Step(s, a);
    LongerStreamIsCanonical(s.inbox, s.sent, t.sent[|s.sent|], s.arrived);
    assert t.sent[..s.inbox.next - 1] == s.sent[..s.inbox.next - 1];
    forall p | p in t.network ensures PacketIsHonest(t, p) {
      assert PacketIsHonest(s, p);
    }
  }

  /** What the receiver reads is what was sent, unless it raises. */
  lemma ReadAsSent(m: Message)
    ensures Parse(ToPayload(m)).Ok? <==> WellFormed(m)
    ensures WellFormed(m) ==> Parse(ToPayload(m)) == Ok(m)
  {
    assert ToPayload(m).(sequence := AsNumber(ToPayload(m).sequence)) == ToPayload(m);
  }

  lemma ArrivalIsAcknowledged(s: System, m: Message)
    requires Invariant(s) && Data(m) in s.network
    ensures forall p :: p in Arrive(s, m).network ==> PacketIsHonest(Arrive(s, m), p)
  {
    assert PacketIsHonest(s, Data(m));
    assert s.sent[m.sequence - 1] == m;
    forall p | p in s.network ensures PacketIsHonest(Arrive(s, m), p) {
      assert PacketIsHonest(s, p);
    }
  }

  lemma ArriveKeepsInvariant(s: System, m: Message)
    requires Invariant(s) && Data(m) in s.network
    ensures Invariant(Arrive(s, m))
    ensures s.log <= Arrive(s, m).log
  {
    ArrivalIsAcknowledged(s, m);
    assert PacketIsHonest(s, Data(m));
    ReceiveIsCanonical(s.inbox, s.sent, s.arrived, m);
    SlicesJoin(s.sent, s.inbox.next - 1, Arrive(s, m).inbox.next - 1);
  }

  lemma DataKeepsInvariant(s: System, m: Message)
    requires Invariant(s) && Enabled(s, DeliverData(m))
    ensures Invariant(Step(s, DeliverData(m)))
    ensures s.log <= Step(s, DeliverData(m)).log
  {
    ReadAsSent(m);
    if WellFormed(m) {
      ArriveKeepsInvariant(s, m);
    }
  }

  lemma AckKeepsInvariant(s: System, id: string, sequence: int)
    requires Invariant(s) && Enabled(s, DeliverAck(id, sequence))
    ensures Invariant(Step(s, DeliverAck(id, sequence)))
  {
    var t := Step(s, DeliverAck(id, sequence));
    assert PacketIsHonest(s, Ack(id, sequence));
    forall p | p in t.network ensures PacketIsHonest(t, p) {
      assert PacketIsHonest(s, p);
    }
  }

  lemma BookkeepingKeepsInvariant(s: System, a: Action)
    requires Invariant(s) && Enabled(s, a)
    requires a.Transmit? || a.RecordSent? || a.GiveUp? || a.Lose?
    ensures Invariant(Step(s, a))
  {
    var t := Step(s, a);
    forall p | p in t.network ensures PacketIsHonest(t, p) {
      assert p in s.network ==> PacketIsHonest(s, p);
    }
  }

  lemma StepKeepsInvariant(s: System, a: Action)
    requires Invariant(s) && Enabled(s, a)
    ensures Invariant(Step(s, a))
    ensures s.sent <= Step(s, a).sent && s.log <= Step(s, a).log
  {
    match a {
      case Submit(_, _, _, _, _, _) => SubmitKeepsInvariant(s, a);
      case DeliverData(m) => DataKeepsInvariant(s, m);
      case DeliverAck(id, sequence) => AckKeepsInvariant(s, id, sequence);
      case _ => BookkeepingKeepsInvariant(s, a);
    }
  }

  lemma {:induction false} RunKeepsInvariant(states: seq<System>, actions: seq<Action>, n: nat)
    requires IsRun(states, actions) && n < |states|
    ensures Invariant(states[n])
  {
    if n == 0 {
      assert Held([], {}, 1) == map[];
    } else {
      RunKeepsInvariant(states, actions, n - 1);
      StepKeepsInvariant(states[n - 1], actions[n - 1]);
    }
  }

  // ---------------------------------------------------------------- the promises

  /** In order, each once, nothing that was not sent: at every point of every run. */
  lemma DeliveriesAreThePrefixSent(states: seq<System>, actions: seq<Action>, n: nat)
    requires IsRun(states, actions) && n < |states|
    ensures 1 <= states[n].inbox.next <= |states[n].sent| + 1
    ensures states[n].log == states[n].sent[..states[n].inbox.next - 1]
    ensures forall i, j :: 0 <= i < j < |states[n].log| ==> states[n].log[i].id != states[n].log[j].id
  {
    RunKeepsInvariant(states, actions, n);
  }

  /** Nothing submitted or delivered is ever taken back or reordered later. */
  lemma {:induction false} HistoryOnlyGrows(states: seq<System>, actions: seq<Action>, i: nat, j: nat)
    requires IsRun(states, actions) && i <= j < |states|
    ensures states[i].sent <= states[j].sent && states[i].log <= states[j].log
    decreases j
  {
    if i < j {
      HistoryOnlyGrows(states, actions, i, j - 1);
      RunKeepsInvariant(states, actions, j - 1);
      StepKeepsInvariant(states[j - 1], actions[j - 1]);
    }
  }

  /**
   * A number the sender dropped for an acknowledgement is delivered, or waits in the buffer as exactly what was sent.
   */
  lemma AckedIsDeliveredOrHeld(states: seq<System>, actions: seq<Action>, n: nat, sequence: int)
    requires IsRun(states, actions) && n < |states|
    requires sequence in states[n].acked
    ensures 1 <= sequence <= |states[n].sent|
    ensures
      || (sequence <= |states[n].log| && states[n].log[sequence - 1] == states[n].sent[sequence - 1])
      || (sequence in states[n].inbox.buffer && states[n].inbox.buffer[sequence] == states[n].sent[sequence - 1])
  {
    RunKeepsInvariant(states, actions, n);
  }

  /**
   * An acknowledged message is delivered exactly if every lower number has arrived. So while a number has not arrived,
   * later messages are acknowledged and not delivered, and for good if it never arrives.
   */
  lemma AckedIsDeliveredExactlyWhen(states: seq<System>, actions: seq<Action>, n: nat, sequence: int)
    requires IsRun(states, actions) && n < |states|
    requires sequence in states[n].acked
    ensures sequence <= |states[n].log| <==> forall k :: 1 <= k < sequence ==> k in states[n].arrived
  {
    RunKeepsInvariant(states, actions, n);
    assert |states[n].log| == states[n].inbox.next - 1;
    assert states[n].inbox.next !in states[n].arrived;
  }

  // ---------------------------------------------------------------- acknowledged and not delivered

  ghost predicate Ends(states: seq<System>, actions: seq<Action>, s: System) {
    IsRun(states, actions) && states[|actions|] == s
  }

  ghost predicate Reachable(s: System) {
    exists states, actions :: Ends(states, actions, s)
  }

  lemma ReachableStep(s: System, a: Action)
    requires Reachable(s) && Enabled(s, a)
    ensures Reachable(Step(s, a))
  {
    var states, actions :| Ends(states, actions, s);
    assert Ends(states + [Step(s, a)], actions + [a], Step(s, a));
  }

  lemma ReachableIsGood(s: System)
    requires Reachable(s)
    ensures Invariant(s)
  {
    var states, actions :| Ends(states, actions, s);
    RunKeepsInvariant(states, actions, |actions|);
  }

  /** A message above the expected number is held back and acknowledged, and its acknowledgement ends its sending. */
  lemma HeldIsAcked(s: System, m: Message) returns (t: System)
    requires Reachable(s) && Data(m) in s.network && WellFormed(m) && m.sequence > s.inbox.next
    requires AckMatches(s.outbound, m.sequence, m.id)
    ensures Reachable(t) && t.sent == s.sent && t.log == s.log && t.arrived == s.arrived + {m.sequence}
    ensures t.acked == s.acked + {m.sequence} && t.outbound == s.outbound - {m.sequence}
  {
    ReachableIsGood(s);
    ReadAsSent(m);
    assert PacketIsHonest(s, Data(m));
    ReachableStep(s, DeliverData(m));
    var held := Step(s, DeliverData(m));
    ReachableStep(held, DeliverAck(m.id, m.sequence));
    t := Step(held, DeliverAck(m.id, m.sequence));
  }

  /**
   * From every reachable state: of two new messages only the second is sent. It arrives and is acknowledged, it is not
   * delivered, and the sender has nothing left to send for it.
   */
  lemma AckedAndNotDelivered(s: System, first: Action, second: Action) returns (t: System)
    requires Reachable(s) && first.Submit? && second.Submit? && Enabled(s, first)
    requires Enabled(Step(s, first), second) && second.innerType != ""
    ensures Reachable(t) && |t.sent| == |s.sent| + 2 && s.sent <= t.sent && t.log == s.log
    ensures |t.sent| in t.acked && |t.sent| !in t.outbound && |t.log| < |t.sent|
    ensures |t.sent| - 1 !in t.arrived
  {
    ReachableIsGood(s);
    ReachableStep(s, first);
    var one := Step(s, first);
    ReachableStep(one, second);
    var two := Step(one, second);
    var m := two.sent[|s.sent| + 1];
    ReachableStep(two, Transmit(m));
    t := HeldIsAcked(Step(two, Transmit(m)), m);
  }

  /** Once every number has been acknowledged, everything submitted has been delivered, in order. */
  lemma QuietSenderMeansAllArrived(states: seq<System>, actions: seq<Action>, n: nat)
    requires IsRun(states, actions) && n < |states|
    requires forall k :: 1 <= k <= |states[n].sent| ==> k in states[n].acked
    ensures states[n].log == states[n].sent
  {
    RunKeepsInvariant(states, actions, n);
    var s := states[n];
    assert s.inbox.next == |s.sent| + 1;
    assert s.sent[..|s.sent|] == s.sent;
  }

  // ---------------------------------------------------------------- everything can be delivered

  /** One message gets through, and its acknowledgement back. */
  lemma OneGetsThrough(s: System, k: nat) returns (t: System)
    requires Reachable(s) && 1 <= k <= |s.sent| && WellFormed(s.sent[k - 1])
    ensures Reachable(t) && t.sent == s.sent && t.arrived == s.arrived + {k} && t.outbound == s.outbound - {k}
  {
    var m := s.sent[k - 1];
    ReachableIsGood(s);
    ReachableStep(s, Transmit(m));
    var sending := Step(s, Transmit(m));
    ReadAsSent(m);
    ReachableStep(sending, DeliverData(m));
    var received := Step(sending, DeliverData(m));
    ReachableStep(received, DeliverAck(m.id, k));
    t := Step(received, DeliverAck(m.id, k));
    assert k !in s.outbound ==> s.outbound - {k} == s.outbound;
  }

  lemma {:induction false} AllGetThrough(s: System, k: nat) returns (t: System)
    requires Reachable(s) && k <= |s.sent| && forall m :: m in s.sent ==> WellFormed(m)
    ensures Reachable(t) && t.sent == s.sent && t.outbound.Keys <= s.outbound.Keys
    ensures forall q :: 1 <= q <= k ==> q in t.arrived && q !in t.outbound
  {
    t := s;
    if k > 0 {
      var u := AllGetThrough(s, k - 1);
      assert u.sent[k - 1] in s.sent;
      t := OneGetsThrough(u, k);
    }
  }

  ghost predicate ArrivedAreReadable(s: System) {
    forall k :: k in s.arrived && 1 <= k <= |s.sent| ==> WellFormed(s.sent[k - 1])
  }

  lemma StepKeepsReadable(s: System, a: Action)
    requires Invariant(s) && ArrivedAreReadable(s) && Enabled(s, a)
    ensures ArrivedAreReadable(Step(s, a))
  {
    if a.DeliverData? {
      ReadAsSent(a.message);
      assert PacketIsHonest(s, Data(a.message));
    }
  }

  /** A message that the receiver cannot read never arrives, so neither it nor any later one is ever delivered. */
  lemma {:induction false} UnreadableStopsDelivery(states: seq<System>, actions: seq<Action>, n: nat)
    requires IsRun(states, actions) && n < |states|
    ensures ArrivedAreReadable(states[n])
    ensures forall m :: m in states[n].log ==> WellFormed(m)
  {
    if n > 0 {
      UnreadableStopsDelivery(states, actions, n - 1);
      RunKeepsInvariant(states, actions, n - 1);
      StepKeepsReadable(states[n - 1], actions[n - 1]);
    }
    RunKeepsInvariant(states, actions, n);
    forall i | 0 <= i < |states[n].log| ensures WellFormed(states[n].log[i]) {
      assert i + 1 in states[n].arrived;
    }
  }

  /**
   * From every reachable state, whatever was lost, given up or delivered out of order before: some continuation without
   * new messages delivers everything that was ever submitted, in order, and empties the outbox, if the receiver can
   * read all of it.
   */
  lemma EverythingCanBeDelivered(s: System) returns (t: System)
    requires Reachable(s) && forall m :: m in s.sent ==> WellFormed(m)
    ensures Reachable(t) && t.sent == s.sent && t.log == s.sent && t.outbound == map[]
  {
    t := AllGetThrough(s, |s.sent|);
    ReachableIsGood(s);
    ReachableIsGood(t);
    assert t.inbox.next == |t.sent| + 1;
    assert t.sent[..|t.sent|] == t.sent;
    assert forall q :: q in t.outbound ==> q in s.outbound && 1 <= q <= |s.sent|;
  }
}
