/** Putting UDP payloads together again from datagrams that are lost, repeated, reordered and interleaved. */
module UdpReassembly {
  import opened UdpFrames
  import opened Wrappers

  datatype Peer = Peer(host: string, port: int)

  datatype Slot = Slot(peer: Peer, id: nat)

  datatype Partial = Partial(total: nat, parts: map<nat, Bytes>, createdAt: real)

  type Frames = map<Slot, Partial>

  // ---------------------------------------------------------------- the specification

  predicate Expired(p: Partial, now: real, timeout: real) {
    now - p.createdAt >= timeout
  }

  function Prune(frames: Frames, now: real, timeout: real): Frames {
    map s | s in frames && !Expired(frames[s], now, timeout) :: frames[s]
  }

  predicate HasAll(parts: map<nat, Bytes>, total: nat) {
    forall i :: 1 <= i <= total ==> i in parts
  }

  /** `build_payload`; HasAll is what keeps its dictionary lookups from failing. */
  function Join(parts: map<nat, Bytes>, total: nat): Bytes
    requires HasAll(parts, total)
  {
    if total == 0 then [] else Join(parts, total - 1) + parts[total]
  }

  /** Parts lie between 1 and the total. */
  ghost predicate WellFormed(p: Partial) {
    forall i :: i in p.parts ==> 1 <= i <= p.total
  }

  ghost predicate AllWellFormed(frames: Frames) {
    forall s :: s in frames ==> WellFormed(frames[s])
  }

  function Positions(n: nat): (r: set<nat>)
    ensures |r| == n
    ensures forall i :: i in r <==> 1 <= i <= n
  {
    if n == 0 then {} else Positions(n - 1) + {n}
  }

  lemma {:induction false} FullSubset(a: set<nat>, b: set<nat>)
    requires a <= b && |a| == |b|
    ensures a == b
  {
    if a != {} {
      var x :| x in a;
      FullSubset(a - {x}, b - {x});
    } else {
      assert b == {};
    }
  }

  /** Counting the parts is enough: as many as the total means each of them. */
  lemma CountIsEnough(p: Partial)
    requires WellFormed(p)
    ensures |p.parts| == p.total <==> HasAll(p.parts, p.total)
    ensures |p.parts| == p.total <==> p.parts.Keys == Positions(p.total)
  {
    assert p.parts.Keys <= Positions(p.total);
    assert HasAll(p.parts, p.total) ==> p.parts.Keys == Positions(p.total);
    if |p.parts| == p.total {
      FullSubset(p.parts.Keys, Positions(p.total));
    }
  }

  /** The frame a fragment is added to: part 1 always starts a new one. */
  function Base(frames: Frames, s: Slot, f: Frame, now: real): Partial {
    if f.part != 1 && s in frames then frames[s] else Partial(f.total, map[], now)
  }

  function WithPart(p: Partial, f: Frame): Partial {
    if f.part in p.parts then p else p.(parts := p.parts[f.part := f.body])
  }

  /** A frame with a part just added is handed up once it is complete and kept until then. */
  function Settle(frames: Frames, s: Slot, p: Partial): (Frames, Option<Bytes>)
    requires WellFormed(p)
  {
    CountIsEnough(p);
    if |p.parts| != p.total then (frames[s := p], None) else (frames - {s}, Some(Join(p.parts, p.total)))
  }

  /** A fragment of a payload of several parts. */
  function Add(frames: Frames, s: Slot, f: Frame, now: real): (Frames, Option<Bytes>)
    requires AllWellFormed(frames) && Encodable(f)
  {
    var base := Base(frames, s, f, now);
    if base.total != f.total then (frames - {s}, None)
    else Settle(frames, s, WithPart(base, f))
  }

  function Reassemble(frames: Frames, d: Bytes, peer: Peer, now: real): (Frames, Option<Bytes>)
    requires AllWellFormed(frames)
  {
    var f := Decode(d);
    if f.None? then (frames, None)
    else if f.value.total == 1 then (frames, Some(f.value.body))
    else Add(frames, Slot(peer, f.value.id), f.value, now)
  }

  datatype Delivery = Delivery(peer: Peer, datagram: Bytes, now: real)

  /** `datagram_received`. */
  function Receive(frames: Frames, d: Delivery, timeout: real): (Frames, Option<Bytes>)
    requires AllWellFormed(frames)
  {
    if d.datagram == KEEPALIVE then (frames, None)
    else Reassemble(Prune(frames, d.now, timeout), d.datagram, d.peer, d.now)
  }

  lemma ReceiveOfFrame(frames: Frames, d: Delivery, timeout: real, f: Frame)
    requires AllWellFormed(frames) && d.datagram != KEEPALIVE && Decode(d.datagram) == Some(f)
    ensures Encodable(f) && AllWellFormed(Prune(frames, d.now, timeout))
    ensures Receive(frames, d, timeout) ==
            if f.total == 1 then (Prune(frames, d.now, timeout), Some(f.body))
            else Add(Prune(frames, d.now, timeout), Slot(d.peer, f.id), f, d.now)
  {
  }

  /** Whatever arrives, from anybody: the frames stay well formed. */
  lemma ReceiveKeepsWellFormed(frames: Frames, d: Delivery, timeout: real)
    requires AllWellFormed(frames)
    ensures AllWellFormed(Receive(frames, d, timeout).0)
  {
  }

  // ---------------------------------------------------------------- the object

  ghost predicate SameElsewhere(frames: Frames, others: Frames, s: Slot) {
    frames - {s} == others - {s}
  }

  lemma SettleIgnoresTheSlot(frames: Frames, others: Frames, s: Slot, p: Partial)
    requires SameElsewhere(frames, others, s) && WellFormed(p)
    ensures Settle(frames, s, p) == Settle(others, s, p)
  {
    assert frames[s := p] == (frames - {s})[s := p] && others[s := p] == (others - {s})[s := p];
  }

  class UdpReassembler {
    var partialFrames: Frames
    var timeout: real

    ghost predicate Valid()
      reads this
    {
      AllWellFormed(partialFrames)
    }

    constructor (timeout: real)
      ensures Valid() && partialFrames == map[] && this.timeout == timeout
    {
      partialFrames := map[];
      this.timeout := timeout;
    }

    method PruneExpiredFrames(now: real)
      requires Valid()
      modifies this`partialFrames
      ensures Valid()
      ensures partialFrames == Prune(old(partialFrames), now, timeout)
    {
      var frames := partialFrames;
      var expired := set s | s in frames && Expired(frames[s], now, timeout);
      while expired != {}
        invariant forall s :: s in expired ==> s in frames && Expired(frames[s], now, timeout)
        invariant forall s :: s in partialFrames <==> s in frames && (s in expired || !Expired(frames[s], now, timeout))
        invariant forall s :: s in partialFrames ==> partialFrames[s] == frames[s]
        decreases |expired|
      {
        var s :| s in expired;
        partialFrames := partialFrames - {s};
        expired := expired - {s};
      }
      ghost var pruned := Prune(frames, now, timeout);
      assert forall s :: s in partialFrames <==> s in pruned;
      assert partialFrames == pruned;
    }

    method TryReassembleDataFrame(d: Bytes, peer: Peer, now: real) returns (payload: Option<Bytes>)
      requires Valid()
      modifies this`partialFrames
      ensures Valid()
      ensures (partialFrames, payload) == Reassemble(old(partialFrames), d, peer, now)
    {
      var decoded := Decode(d);
      if decoded.None? {
        return None;
      }
      var f := decoded.value;
      if f.total == 1 {
        return Some(f.body);
      }
      payload := AddFragment(Slot(peer, f.id), f, now);
    }

    method AddFragment(s: Slot, f: Frame, now: real) returns (payload: Option<Bytes>)
      requires Valid() && Encodable(f)
      modifies this`partialFrames
      ensures Valid()
      ensures (partialFrames, payload) == Add(old(partialFrames), s, f, now)
    {
      if f.part == 1 && s in partialFrames {
        partialFrames := partialFrames - {s};
      }
      var frame: Partial;
      if s !in partialFrames {
        frame := Partial(f.total, map[], now);
        partialFrames := partialFrames[s := frame];
      } else {
        frame := partialFrames[s];
        if frame.total != f.total {
          partialFrames := partialFrames - {s};
          return None;
        }
      }
      assert frame == Base(old(partialFrames), s, f, now);
      assert SameElsewhere(partialFrames, old(partialFrames), s);
      SettleIgnoresTheSlot(partialFrames, old(partialFrames), s, WithPart(frame, f));
      payload := SetPart(s, frame, f);
    }

    method SetPart(s: Slot, frame: Partial, f: Frame) returns (payload: Option<Bytes>)
      requires Valid() && Encodable(f) && WellFormed(frame) && frame.total == f.total
      requires s in partialFrames && partialFrames[s] == frame
      modifies this`partialFrames
      ensures Valid()
      ensures (partialFrames, payload) == Settle(old(partialFrames), s, WithPart(frame, f))
    {
      var parts := frame.parts;
      if f.part !in parts {
        parts := parts[f.part := f.body];
      }
      var updated := frame.(parts := parts);
      assert updated == WithPart(frame, f);
      CountIsEnough(updated);
      if |parts| != frame.total {
        partialFrames := partialFrames[s := updated];
        return None;
      }
      partialFrames := partialFrames - {s};
      var whole := BuildPayload(updated);
      payload := Some(whole);
    }

    method BuildPayload(frame: Partial) returns (payload: Bytes)
      requires HasAll(frame.parts, frame.total)
      ensures payload == Join(frame.parts, frame.total)
    {
      payload := [];
      for i := 0 to frame.total
        invariant payload == Join(frame.parts, i)
      {
        payload := payload + frame.parts[i + 1];
      }
    }

    method DatagramReceived(d: Delivery) returns (payload: Option<Bytes>)
      requires Valid()
      modifies this`partialFrames
      ensures Valid()
      ensures (partialFrames, payload) == Receive(old(partialFrames), d, timeout)
    {
      if d.datagram == KEEPALIVE {
        return None;
      }
      PruneExpiredFrames(d.now);
      payload := TryReassembleDataFrame(d.datagram, d.peer, d.now);
    }
  }

  // ---------------------------------------------------------------- safety over whole runs

  /** A payload a peer sent: its frame id and pieces. */
  datatype Sent = Sent(peer: Peer, id: nat, pieces: seq<Bytes>)

  ghost predicate ValidSent(t: Sent) {
    ValidUint32(t.id) && 1 <= |t.pieces| <= UINT32_MAX
  }

  /** One peer, one frame id, one number of pieces, and more than one: only such payloads can meet in a frame. */
  ghost predicate Rivals(t: Sent, u: Sent) {
    t.peer == u.peer && t.id == u.id && |t.pieces| == |u.pieces| > 1
  }

  ghost predicate DifferAt(t: Sent, u: Sent, i: nat) {
    i < |t.pieces| && i < |u.pieces| && t.pieces[i] != u.pieces[i]
  }

  ghost predicate DifferTwice(t: Sent, u: Sent) {
    exists i, j :: i < j && DifferAt(t, u, i) && DifferAt(t, u, j)
  }

  /** Payloads that share a peer, a frame id and a number of pieces differ in one piece at most. */
  ghost predicate NoneDifferTwice(sent: set<Sent>) {
    && (forall t :: t in sent ==> ValidSent(t))
    && forall t, u :: t in sent && u in sent && Rivals(t, u) ==> !DifferTwice(t, u)
  }

  /** The datagram is a keepalive or the encoding of a piece its peer sent. */
  ghost predicate Honest(sent: set<Sent>, d: Delivery) {
    || d.datagram == KEEPALIVE
    || exists t, i :: t in sent && t.peer == d.peer && 0 <= i < |t.pieces|
        && Encode(FrameOf(t.id, t.pieces, i)) == Ok(d.datagram)
  }

  datatype Event = Send(t: Sent) | Deliver(d: Delivery) | Stop

  datatype State = State(sent: set<Sent>, frames: Frames, emitted: set<(Peer, Bytes)>)

  const START := State({}, map[], {})

  ghost predicate Possible(s: State, e: Event) {
    match e
    case Send(t) => ValidSent(t)
    case Deliver(d) => Honest(s.sent, d)
    case Stop => true
  }

  ghost function Step(s: State, e: Event, timeout: real): State
    requires AllWellFormed(s.frames)
  {
    match e
    case Send(t) => s.(sent := s.sent + {t})
    case Deliver(d) =>
      var r := Receive(s.frames, d, timeout);
      s.(frames := r.0, emitted := s.emitted + if r.1.Some? then {(d.peer, r.1.value)} else {})
    case Stop => s.(frames := map[])
  }

  /** The parts kept for a slot are pieces of one payload its peer sent. */
  ghost predicate PiecesOf(t: Sent, s: Slot, p: Partial) {
    && t.peer == s.peer && t.id == s.id && |t.pieces| > 1 && p.total == |t.pieces|
    && forall i :: i in p.parts ==> 1 <= i <= p.total && p.parts[i] == t.pieces[i - 1]
  }

  ghost predicate Genuine(sent: set<Sent>, s: Slot, p: Partial) {
    exists t :: t in sent && PiecesOf(t, s, p)
  }

  ghost predicate WasSent(sent: set<Sent>, peer: Peer, payload: Bytes) {
    exists t :: t in sent && t.peer == peer && Concat(t.pieces) == payload
  }

  ghost predicate Invariant(s: State) {
    && NoneDifferTwice(s.sent)
    && AllWellFormed(s.frames)
    && AllGenuine(s.sent, s.frames)
    && (forall e :: e in s.emitted ==> WasSent(s.sent, e.0, e.1))
  }

  lemma {:induction false} JoinOfPieces(t: Sent, s: Slot, p: Partial, n: nat)
    requires PiecesOf(t, s, p) && n <= p.total && HasAll(p.parts, n)
    ensures Join(p.parts, n) == Concat(t.pieces[..n])
  {
    if n > 0 {
      JoinOfPieces(t, s, p, n - 1);
      assert t.pieces[..n][..n - 1] == t.pieces[..n - 1];
    }
  }

  ghost predicate AllGenuine(sent: set<Sent>, frames: Frames) {
    forall k :: k in frames ==> Genuine(sent, k, frames[k])
  }

  lemma PruneIsGenuine(sent: set<Sent>, frames: Frames, now: real, timeout: real)
    requires AllGenuine(sent, frames)
    ensures AllGenuine(sent, Prune(frames, now, timeout))
  {
  }

  lemma SettleIsGenuine(sent: set<Sent>, frames: Frames, t: Sent, p: Partial)
    requires AllGenuine(sent, frames) && t in sent && PiecesOf(t, Slot(t.peer, t.id), p)
    ensures WellFormed(p)
    ensures var r := Settle(frames, Slot(t.peer, t.id), p);
            AllGenuine(sent, r.0) && (r.1.Some? ==> r.1.value == Concat(t.pieces))
  {
    assert Genuine(sent, Slot(t.peer, t.id), p);
    CountIsEnough(p);
    if HasAll(p.parts, p.total) {
      JoinOfPieces(t, Slot(t.peer, t.id), p, p.total);
      assert t.pieces[..p.total] == t.pieces;
    }
  }

  /** A part of one rival fits what is kept of the other, or else makes it what is kept of the first. */
  lemma PartIsGenuine(t: Sent, u: Sent, p: Partial, i: nat)
    requires Rivals(t, u) && !DifferTwice(t, u) && PiecesOf(t, Slot(t.peer, t.id), p) && i < |u.pieces|
    ensures var q := WithPart(p, FrameOf(u.id, u.pieces, i));
            PiecesOf(t, Slot(t.peer, t.id), q) || PiecesOf(u, Slot(t.peer, t.id), q)
  {
    if DifferAt(t, u, i) && i + 1 !in p.parts {
      forall k | k in p.parts ensures p.parts[k] == u.pieces[k - 1] {
        assert DifferAt(t, u, k - 1) ==> k - 1 == i by {
          assert k - 1 < i && DifferAt(t, u, k - 1) ==> DifferTwice(t, u);
          assert i < k - 1 && DifferAt(t, u, k - 1) ==> DifferTwice(t, u);
        }
      }
    }
  }

  /** The payload that what is kept belongs to; part 1 begins anew. */
  lemma BaseIsGenuine(sent: set<Sent>, frames: Frames, t: Sent, f: Frame, now: real) returns (u: Sent)
    requires AllGenuine(sent, frames)
    requires t in sent && |t.pieces| > 1 && f.total == |t.pieces|
    ensures u in sent && PiecesOf(u, Slot(t.peer, t.id), Base(frames, Slot(t.peer, t.id), f, now))
  {
    var s := Slot(t.peer, t.id);
    if f.part != 1 && s in frames {
      assert Genuine(sent, s, frames[s]);
      u :| u in sent && PiecesOf(u, s, frames[s]);
    } else {
      u := t;
    }
  }

  lemma AddIsGenuine(sent: set<Sent>, frames: Frames, t: Sent, i: nat, now: real)
    requires NoneDifferTwice(sent) && AllWellFormed(frames) && AllGenuine(sent, frames)
    requires t in sent && |t.pieces| > 1 && i < |t.pieces|
    ensures Encodable(FrameOf(t.id, t.pieces, i))
    ensures var r := Add(frames, Slot(t.peer, t.id), FrameOf(t.id, t.pieces, i), now);
            AllGenuine(sent, r.0) && (r.1.Some? ==> WasSent(sent, t.peer, r.1.value))
  {
    var f := FrameOf(t.id, t.pieces, i);
    var base := Base(frames, Slot(t.peer, t.id), f, now);
    var u := BaseIsGenuine(sent, frames, t, f, now);
    if base.total == f.total {
      PartIsGenuine(u, t, base, i);
      SettleIsGenuine(sent, frames, if PiecesOf(u, Slot(t.peer, t.id), WithPart(base, f)) then u
          else t, WithPart(base, f));
    }
  }

  lemma PieceIsGenuine(sent: set<Sent>, frames: Frames, t: Sent, i: nat, d: Delivery, timeout: real)
    requires NoneDifferTwice(sent) && AllWellFormed(frames) && AllGenuine(sent, frames)
    requires t in sent && i < |t.pieces| && t.peer == d.peer
    requires d.datagram != KEEPALIVE && Decode(d.datagram) == Some(FrameOf(t.id, t.pieces, i))
    ensures var r := Receive(frames, d, timeout);
            AllGenuine(sent, r.0) && (r.1.Some? ==> WasSent(sent, d.peer, r.1.value))
  {
    ReceiveOfFrame(frames, d, timeout, FrameOf(t.id, t.pieces, i));
    PruneIsGenuine(sent, frames, d.now, timeout);
    if |t.pieces| == 1 {
      assert t.pieces[..0] == [] && Concat(t.pieces) == t.pieces[0];
    } else {
      AddIsGenuine(sent, Prune(frames, d.now, timeout), t, i, d.now);
    }
  }

  lemma ReceiveIsGenuine(sent: set<Sent>, frames: Frames, d: Delivery, timeout: real)
    requires NoneDifferTwice(sent) && AllWellFormed(frames) && AllGenuine(sent, frames) && Honest(sent, d)
    ensures var r := Receive(frames, d, timeout);
            AllGenuine(sent, r.0) && (r.1.Some? ==> WasSent(sent, d.peer, r.1.value))
  {
    if d.datagram != KEEPALIVE {
      var t, i :| t in sent && t.peer == d.peer && 0 <= i < |t.pieces|
          && Encode(FrameOf(t.id, t.pieces, i)) == Ok(d.datagram);
      DecodeOfEncode(FrameOf(t.id, t.pieces, i));
      PieceIsGenuine(sent, frames, t, i, d, timeout);
    }
  }

  lemma StepKeepsInvariant(s: State, e: Event, timeout: real)
    requires Invariant(s) && Possible(s, e) && NoneDifferTwice(Step(s, e, timeout).sent)
    ensures Invariant(Step(s, e, timeout))
  {
    match e
    case Send(t) =>
      var more := s.sent + {t};
      forall k | k in s.frames ensures Genuine(more, k, s.frames[k]) {
        assert Genuine(s.sent, k, s.frames[k]);
      }
      forall e | e in s.emitted ensures WasSent(more, e.0, e.1) {
        assert WasSent(s.sent, e.0, e.1);
      }
    case Deliver(d) =>
      ReceiveKeepsWellFormed(s.frames, d, timeout);
      ReceiveIsGenuine(s.sent, s.frames, d, timeout);
    case Stop =>
  }

  ghost function StateAfter(events: seq<Event>, timeout: real): (s: State)
    ensures AllWellFormed(s.frames)
  {
    if events == [] then START
    else
      var before, e := StateAfter(events[..|events| - 1], timeout), events[|events| - 1];
      assert AllWellFormed(Step(before, e, timeout).frames) by {
        if e.Deliver? {
          ReceiveKeepsWellFormed(before.frames, e.d, timeout);
        }
      }
      Step(before, e, timeout)
  }

  /** Events that can happen one after the other: anything may be sent, and only what was sent may arrive. */
  ghost predicate IsRun(events: seq<Event>, timeout: real) {
    forall i {:trigger events[i]} :: 0 <= i < |events| ==> Possible(StateAfter(events[..i], timeout), events[i])
  }

  lemma RunOfMore(events: seq<Event>, e: Event, timeout: real)
    ensures StateAfter(events + [e], timeout) == Step(StateAfter(events, timeout), e, timeout)
    ensures IsRun(events + [e], timeout) <==> IsRun(events, timeout) && Possible(StateAfter(events, timeout), e)
  {
    var more := events + [e];
    assert more[..|events|] == events && more[|events|] == e;
    assert forall i :: 0 <= i < |events| ==> more[..i] == events[..i] && more[i] == events[i];
  }

  lemma SentOnlyGrows(s: State, e: Event, timeout: real)
    requires AllWellFormed(s.frames)
    ensures s.sent <= Step(s, e, timeout).sent
  {
  }

  /**
   * In every run in which no two rivals differ in more than one piece, everything handed up as coming from a peer was
   * sent, whole, by that peer.
   */
  lemma {:induction false} EmittedWasSent(events: seq<Event>, timeout: real)
    requires IsRun(events, timeout) && NoneDifferTwice(StateAfter(events, timeout).sent)
    ensures Invariant(StateAfter(events, timeout))
    ensures forall e :: e in StateAfter(events, timeout).emitted ==> WasSent(StateAfter(events, timeout).sent, e.0, e.1)
  {
    if events != [] {
      var init, e := events[..|events| - 1], events[|events| - 1];
      assert events == init + [e];
      RunOfMore(init, e, timeout);
      SentOnlyGrows(StateAfter(init, timeout), e, timeout);
      EmittedWasSent(init, timeout);
      StepKeepsInvariant(StateAfter(init, timeout), e, timeout);
    }
  }

  // ---------------------------------------------------------------- completeness

  /** Exactly the pieces of t at the positions `got` are kept, since time `since`. */
  ghost predicate Holding(frames: Frames, t: Sent, got: set<nat>, since: real) {
    var s := Slot(t.peer, t.id);
    && s in frames && frames[s].total == |t.pieces| && frames[s].createdAt == since
    && frames[s].parts.Keys == got
    && forall i :: i in got ==> 1 <= i <= |t.pieces| && frames[s].parts[i] == t.pieces[i - 1]
  }

  ghost predicate Carries(d: Delivery, t: Sent, part: nat) {
    d.peer == t.peer && 1 <= part <= |t.pieces| && Encode(FrameOf(t.id, t.pieces, part - 1)) == Ok(d.datagram)
  }

  ghost predicate Concerns(d: Delivery, s: Slot) {
    d.datagram != KEEPALIVE && Decode(d.datagram).Some? && Decode(d.datagram).value.total > 1
    && Slot(d.peer, Decode(d.datagram).value.id) == s
  }

  lemma CarriedFrame(d: Delivery, t: Sent, part: nat)
    requires ValidSent(t) && Carries(d, t, part)
    ensures d.datagram != KEEPALIVE && Decode(d.datagram) == Some(FrameOf(t.id, t.pieces, part - 1))
  {
    DecodeOfEncode(FrameOf(t.id, t.pieces, part - 1));
    NoFrameIsKeepalive(FrameOf(t.id, t.pieces, part - 1));
  }

  /** Part 1 starts the frame anew, whatever was kept of it. */
  lemma PartOneRestarts(frames: Frames, d: Delivery, t: Sent, timeout: real)
    requires AllWellFormed(frames) && ValidSent(t) && |t.pieces| > 1 && Carries(d, t, 1)
    ensures Receive(frames, d, timeout).1 == None
    ensures Holding(Receive(frames, d, timeout).0, t, {1}, d.now)
  {
    CarriedFrame(d, t, 1);
  }

  /** Traffic for other frames neither helps nor harms. */
  lemma OthersDoNotMatter(frames: Frames, d: Delivery, t: Sent, got: set<nat>, since: real, timeout: real)
    requires AllWellFormed(frames) && Holding(frames, t, got, since) && d.now - since < timeout
    requires !Concerns(d, Slot(t.peer, t.id))
    ensures Holding(Receive(frames, d, timeout).0, t, got, since)
  {
  }

  lemma PartIsSettled(frames: Frames, t: Sent, p: Partial, got: set<nat>)
    requires |t.pieces| > 1 && PiecesOf(t, Slot(t.peer, t.id), p) && p.parts.Keys == got
    ensures WellFormed(p)
    ensures var r := Settle(frames, Slot(t.peer, t.id), p);
            if got == Positions(|t.pieces|) then r.1 == Some(Concat(t.pieces)) && Slot(t.peer, t.id) !in r.0
            else r.1 == None && Holding(r.0, t, got, p.createdAt)
  {
    CountIsEnough(p);
    if got == Positions(|t.pieces|) {
      JoinOfPieces(t, Slot(t.peer, t.id), p, p.total);
      assert t.pieces[..p.total] == t.pieces;
    }
  }

  lemma PartIsAdded(frames: Frames, t: Sent, part: nat, got: set<nat>, since: real, now: real)
    requires AllWellFormed(frames) && Holding(frames, t, got, since)
    requires ValidSent(t) && |t.pieces| > 1 && 1 < part <= |t.pieces|
    ensures var r := Add(frames, Slot(t.peer, t.id), FrameOf(t.id, t.pieces, part - 1), now);
            if got + {part} == Positions(|t.pieces|) then r.1 == Some(Concat(t.pieces)) && Slot(t.peer, t.id) !in r.0
            else r.1 == None && Holding(r.0, t, got + {part}, since)
  {
    var p := WithPart(frames[Slot(t.peer, t.id)], FrameOf(t.id, t.pieces, part - 1));
    assert p.parts.Keys == got + {part};
    PartIsSettled(frames, t, p, got + {part});
  }

  /** A further part is kept until the last missing one arrives, which completes the payload. */
  lemma PartIsKept(frames: Frames, d: Delivery, t: Sent, part: nat, got: set<nat>, since: real, timeout: real)
    requires AllWellFormed(frames) && Holding(frames, t, got, since) && d.now - since < timeout
    requires ValidSent(t) && |t.pieces| > 1 && part > 1 && Carries(d, t, part)
    ensures var r := Receive(frames, d, timeout);
            if got + {part} == Positions(|t.pieces|) then r.1 == Some(Concat(t.pieces)) && Slot(t.peer, t.id) !in r.0
            else r.1 == None && Holding(r.0, t, got + {part}, since)
  {
    CarriedFrame(d, t, part);
    ReceiveOfFrame(frames, d, timeout, FrameOf(t.id, t.pieces, part - 1));
    PartIsAdded(Prune(frames, d.now, timeout), t, part, got, since, d.now);
  }

  /** After the timeout what was kept is forgotten: a late part begins a frame of its own. */
  lemma ExpiryForgets(frames: Frames, d: Delivery, t: Sent, part: nat, got: set<nat>, since: real, timeout: real)
    requires AllWellFormed(frames) && Holding(frames, t, got, since) && d.now - since >= timeout
    requires ValidSent(t) && |t.pieces| > 1 && Carries(d, t, part)
    ensures Receive(frames, d, timeout).1 == None
    ensures Holding(Receive(frames, d, timeout).0, t, {part}, d.now)
  {
    var s, f := Slot(t.peer, t.id), FrameOf(t.id, t.pieces, part - 1);
    CarriedFrame(d, t, part);
    ReceiveOfFrame(frames, d, timeout, f);
    var p := Partial(|t.pieces|, map[part := t.pieces[part - 1]], d.now);
    assert WithPart(Base(Prune(frames, d.now, timeout), s, f, d.now), f) == p;
    assert p.parts.Keys == {part};
  }

  // ---------------------------------------------------------------- whatever arrives

  /** Frames that are younger than the timeout, and no others. */
  ghost predicate OnlyYoung(frames: Frames, later: Frames, now: real, timeout: real) {
    forall s :: (s in later <==> s in frames && now < frames[s].createdAt + timeout) &&
                (s in later ==> later[s] == frames[s])
  }

  /** A keepalive does nothing; garbage and single pieces do nothing to the frames but let the old ones go. */
  lemma FramesAreLeftAlone(frames: Frames, d: Delivery, timeout: real)
    requires AllWellFormed(frames)
    requires d.datagram == KEEPALIVE || Decode(d.datagram).None? || Decode(d.datagram).value.total == 1
    ensures var (later, up) := Receive(frames, d, timeout);
            && (if d.datagram == KEEPALIVE then later == frames else OnlyYoung(frames, later, d.now, timeout))
            && up == if Decode(d.datagram).None? then None else Some(Decode(d.datagram).value.body)
  {
    NoFrameIsKeepalive(Frame(1, 1, 1, []));
  }

  /** A payload of one piece is handed up as soon as it comes. */
  lemma SinglePieceComesAtOnce(frames: Frames, d: Delivery, t: Sent, timeout: real)
    requires AllWellFormed(frames) && ValidSent(t) && |t.pieces| == 1 && Carries(d, t, 1)
    ensures Receive(frames, d, timeout).1 == Some(Concat(t.pieces))
  {
    CarriedFrame(d, t, 1);
    ReceiveOfFrame(frames, d, timeout, FrameOf(t.id, t.pieces, 0));
    assert t.pieces[..0] == [] && [] + t.pieces[0] == t.pieces[0];
  }

  /** What is left of a fragment of several when it meets a young frame of its slot. */
  ghost predicate Meets(frames: Frames, d: Delivery, timeout: real, s: Slot, f: Frame) {
    && d.datagram != KEEPALIVE && Decode(d.datagram) == Some(f) && f.total > 1 && s == Slot(d.peer, f.id)
    && s in frames && d.now < frames[s].createdAt + timeout
  }

  /** A fragment that says another total, unless it is part 1, drops the frame and itself. */
  lemma OtherTotalDropsTheFrame(frames: Frames, d: Delivery, timeout: real, s: Slot, f: Frame)
    requires AllWellFormed(frames) && Meets(frames, d, timeout, s, f) && f.part != 1 && f.total != frames[s].total
    ensures Receive(frames, d, timeout).1 == None && s !in Receive(frames, d, timeout).0
  {
    ReceiveOfFrame(frames, d, timeout, f);
  }

  /** The first copy of a part stays, whatever a later one says; only part 1 begins anew. */
  lemma FirstCopyStays(frames: Frames, d: Delivery, timeout: real, s: Slot, f: Frame)
    requires AllWellFormed(frames) && Meets(frames, d, timeout, s, f) && f.part != 1 && f.total == frames[s].total
    requires f.part in frames[s].parts && |frames[s].parts| != frames[s].total
    ensures var (later, up) := Receive(frames, d, timeout); up == None && s in later && later[s] == frames[s]
  {
    ReceiveOfFrame(frames, d, timeout, f);
  }

  /** A fragment that meets no young frame of its slot, or is part 1, begins one with itself, at its time of arrival. */
  lemma FragmentBeginsFrame(frames: Frames, d: Delivery, timeout: real, s: Slot, f: Frame)
    requires AllWellFormed(frames) && d.datagram != KEEPALIVE && Decode(d.datagram) == Some(f) && f.total > 1
    requires s == Slot(d.peer, f.id) && (f.part == 1 || !Meets(frames, d, timeout, s, f))
    ensures var (later, up) := Receive(frames, d, timeout);
            up == None && s in later && later[s] == Partial(f.total, map[f.part := f.body], d.now)
  {
    ReceiveOfFrame(frames, d, timeout, f);
    assert s in Prune(frames, d.now, timeout) ==> Meets(frames, d, timeout, s, f);
    assert WithPart(Base(Prune(frames, d.now, timeout), s, f, d.now), f).parts == map[f.part := f.body];
  }

  function FramesAfter(frames: Frames, ds: seq<Delivery>, timeout: real): (r: Frames)
    requires AllWellFormed(frames)
    ensures AllWellFormed(r)
  {
    if ds == [] then frames
    else
      var before := FramesAfter(frames, ds[..|ds| - 1], timeout);
      ReceiveKeepsWellFormed(before, ds[|ds| - 1], timeout);
      Receive(before, ds[|ds| - 1], timeout).0
  }

  /** Before the timeout, with parts 2 and up of t, in any order and number, and any other traffic. */
  ghost predicate Timely(ds: seq<Delivery>, t: Sent, since: real, timeout: real) {
    forall i :: 0 <= i < |ds| ==>
      && ds[i].now - since < timeout
      && (Concerns(ds[i], Slot(t.peer, t.id)) ==> exists part :: part > 1 && Carries(ds[i], t, part))
  }

  ghost function Got(ds: seq<Delivery>, t: Sent): set<nat> {
    {1} + set part, i | 0 <= i < |ds| && 1 < part <= |t.pieces| && Carries(ds[i], t, part) :: part
  }

  lemma GotGrows(ds: seq<Delivery>, t: Sent, part: nat)
    requires ds != [] && ValidSent(t) && part > 1 && Carries(ds[|ds| - 1], t, part)
    ensures Got(ds, t) == Got(ds[..|ds| - 1], t) + {part}
  {
    var n, init := |ds| - 1, ds[..|ds| - 1];
    forall other | other > 1 && Carries(ds[n], t, other) ensures other == part {
      CarriedFrame(ds[n], t, part);
      CarriedFrame(ds[n], t, other);
    }
    GotSplits(ds, t);
    assert forall x :: x in Here(ds[n], t) <==> x == part;
    assert Here(ds[n], t) == {part};
  }

  /** The parts above 1 that one delivery carries. */
  ghost function Here(d: Delivery, t: Sent): set<nat> {
    set part | 1 < part <= |t.pieces| && Carries(d, t, part)
  }

  lemma GotSplits(ds: seq<Delivery>, t: Sent)
    requires ds != []
    ensures Got(ds, t) == Got(ds[..|ds| - 1], t) + Here(ds[|ds| - 1], t)
  {
    var n, init := |ds| - 1, ds[..|ds| - 1];
    assert ds == init + [ds[n]];
    forall x | x in Got(ds, t) ensures x in Got(init, t) + Here(ds[n], t) {
      if x != 1 {
        var i :| 0 <= i < |ds| && 1 < x <= |t.pieces| && Carries(ds[i], t, x);
        assert i < n ==> Carries(init[i], t, x);
      }
    }
    forall x | x in Got(init, t) ensures x in Got(ds, t) {
      if x != 1 {
        var i :| 0 <= i < |init| && 1 < x <= |t.pieces| && Carries(init[i], t, x);
        assert Carries(ds[i], t, x);
      }
    }
  }

  lemma GotUnchanged(ds: seq<Delivery>, t: Sent)
    requires ds != [] && ValidSent(t) && |t.pieces| > 1 && !Concerns(ds[|ds| - 1], Slot(t.peer, t.id))
    ensures Got(ds, t) == Got(ds[..|ds| - 1], t)
  {
    GotSplits(ds, t);
    var d := ds[|ds| - 1];
    forall part | Carries(d, t, part) ensures false {
      CarriedFrame(d, t, part);
    }
    assert Here(d, t) == {};
  }

  ghost predicate Missing(ds: seq<Delivery>, t: Sent) {
    Got(ds, t) != Positions(|t.pieces|)
  }

  /** While a part is missing, exactly the parts that came are kept. */
  lemma {:induction false} PartsAreKept(frames: Frames, ds: seq<Delivery>, t: Sent, since: real, timeout: real)
    requires AllWellFormed(frames) && ValidSent(t) && |t.pieces| > 1
    requires Holding(frames, t, {1}, since) && Timely(ds, t, since, timeout)
    requires forall k :: 0 <= k <= |ds| ==> Missing(ds[..k], t)
    ensures Holding(FramesAfter(frames, ds, timeout), t, Got(ds, t), since)
  {
    if ds == [] {
      assert Got(ds, t) == {1};
    } else {
      var n, init, d := |ds| - 1, ds[..|ds| - 1], ds[|ds| - 1];
      forall k | 0 <= k <= n ensures Missing(init[..k], t) {
        assert init[..k] == ds[..k] && Missing(ds[..k], t);
      }
      assert ds[..n + 1] == ds && Missing(ds[..n + 1], t);
      PartsAreKept(frames, init, t, since, timeout);
      var before := FramesAfter(frames, init, timeout);
      if Concerns(d, Slot(t.peer, t.id)) {
        var part :| part > 1 && Carries(d, t, part);
        GotGrows(ds, t, part);
        PartIsKept(before, d, t, part, Got(init, t), since, timeout);
      } else {
        GotUnchanged(ds, t);
        OthersDoNotMatter(before, d, t, Got(init, t), since, timeout);
      }
    }
  }

  /**
   * After part 1, and before it is repeated or the frame expires, every order and repetition of the other parts, mixed
   * with any other traffic, gives the payload exactly at the delivery that brings the last missing part.
   */
  lemma CompletesWithTheLastPart(frames: Frames, ds: seq<Delivery>, d: Delivery, t: Sent, part: nat, since: real,
                                 timeout: real)
    requires AllWellFormed(frames) && ValidSent(t) && |t.pieces| > 1
    requires Holding(frames, t, {1}, since) && Timely(ds, t, since, timeout)
    requires forall k :: 0 <= k <= |ds| ==> Missing(ds[..k], t)
    requires d.now - since < timeout && part > 1 && Carries(d, t, part)
    ensures Receive(FramesAfter(frames, ds, timeout), d, timeout).1 ==
            if Got(ds + [d], t) == Positions(|t.pieces|) then Some(Concat(t.pieces)) else None
  {
    PartsAreKept(frames, ds, t, since, timeout);
    assert (ds + [d])[..|ds|] == ds;
    GotGrows(ds + [d], t, part);
    PartIsKept(FramesAfter(frames, ds, timeout), d, t, part, Got(ds, t), since, timeout);
  }

  /** The pieces of a payload that was built for sending: what completes is that payload. */
  lemma CompletedIsThePayload(payload: Bytes, maximum: int, random: Bytes, peer: Peer)
    requires |random| == 4 && BuildDatagrams(payload, maximum, random).Ok?
    ensures var t := Sent(peer, FrameId(random), Pieces(payload, maximum - HEADER_SIZE));
            && ValidSent(t) && Concat(t.pieces) == payload
            && var r := BuildDatagrams(payload, maximum, random).value;
            && |r| == |t.pieces|
            && forall i, now :: 0 <= i < |r| ==> Carries(Delivery(peer, r[i], now), t, i + 1)
  {
    DatagramsCarryThePayload(payload, maximum, random);
    var t := Sent(peer, FrameId(random), Pieces(payload, maximum - HEADER_SIZE));
    var r := BuildDatagrams(payload, maximum, random).value;
    forall i, now | 0 <= i < |r| ensures Carries(Delivery(peer, r[i], now), t, i + 1) {
      EncodeOfDecode(r[i]);
    }
  }
}
