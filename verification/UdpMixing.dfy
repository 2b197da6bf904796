/** When two payloads of one peer under one frame id come out as a third that neither was. */
module UdpMixing {
  import opened UdpFrames
  import opened UdpReassembly
  import opened Wrappers

  // ---------------------------------------------------------------- pieces of one size

  /** Every piece but the last has the same size, as a sender with one datagram limit cuts them. */
  ghost predicate Cut(pieces: seq<Bytes>, size: nat) {
    forall k :: 0 <= k < |pieces| - 1 ==> |pieces[k]| == size
  }

  lemma PiecesAreCut(payload: Bytes, size: nat)
    requires size > 0
    ensures Cut(Pieces(payload, size), size)
  {
    forall k | 0 <= k < |Pieces(payload, size)| - 1 ensures |Pieces(payload, size)[k]| == size {
      ChunksAreFull(payload, size, k);
    }
  }

  ghost predicate SameSizes(a: seq<Bytes>, b: seq<Bytes>) {
    |a| == |b| && forall k :: 0 <= k < |a| ==> |a[k]| == |b[k]|
  }

  lemma {:induction false} SameLengths(a: seq<Bytes>, b: seq<Bytes>)
    requires SameSizes(a, b)
    ensures |Concat(a)| == |Concat(b)|
  {
    if a != [] {
      SameLengths(a[..|a| - 1], b[..|b| - 1]);
    }
  }

  lemma SumsAreEqual(a: Bytes, b: Bytes, x: Bytes, y: Bytes)
    requires |a| == |b| && a + x == b + y
    ensures a == b && x == y
  {
    assert a == (a + x)[..|a|] && b == (b + y)[..|b|];
    assert x == (a + x)[|a|..] && y == (b + y)[|b|..];
  }

  /** Pieces cut alike are told apart by their concatenation. */
  lemma {:induction false} ConcatIsInjective(a: seq<Bytes>, b: seq<Bytes>)
    requires |a| == |b| && (forall k :: 0 <= k < |a| - 1 ==> |a[k]| == |b[k]|) && Concat(a) == Concat(b)
    ensures a == b
  {
    if a != [] {
      var n := |a| - 1;
      var x, y := a[..n], b[..n];
      assert SameSizes(x, y);
      SameLengths(x, y);
      SumsAreEqual(Concat(x), Concat(y), a[n], b[n]);
      ConcatIsInjective(x, y);
      assert a == x + [a[n]] && b == y + [b[n]];
    }
  }

  // ---------------------------------------------------------------- the mixture

  /** The first payload with one piece of the second. */
  function Mixture(t: Sent, u: Sent, i: nat): Sent
    requires i < |t.pieces| && i < |u.pieces|
  {
    Sent(t.peer, t.id, t.pieces[i := u.pieces[i]])
  }

  lemma MixtureIsNeither(t: Sent, u: Sent, i: nat, j: nat, size: nat)
    requires Rivals(t, u) && Cut(t.pieces, size) && Cut(u.pieces, size)
    requires i != j && DifferAt(t, u, i) && DifferAt(t, u, j)
    ensures Concat(Mixture(t, u, i).pieces) != Concat(t.pieces) && Concat(Mixture(t, u, i).pieces) != Concat(u.pieces)
  {
    var m := Mixture(t, u, i).pieces;
    if Concat(m) == Concat(t.pieces) {
      ConcatIsInjective(m, t.pieces);
    }
    if Concat(m) == Concat(u.pieces) {
      ConcatIsInjective(m, u.pieces);
    }
  }

  function Datagram(m: Sent, part: nat): Bytes
    requires ValidSent(m) && 1 <= part <= |m.pieces|
  {
    Encode(FrameOf(m.id, m.pieces, part - 1)).value
  }

  ghost predicate OnlySends(events: seq<Event>, t: Sent, u: Sent) {
    forall i :: 0 <= i < |events| && events[i].Send? ==> events[i].t == t || events[i].t == u
  }

  /** A state after both were sent, with parts 1 to n of the mixture delivered and kept, or all of them handed up. */
  ghost predicate MixedUpTo(s: State, t: Sent, u: Sent, m: Sent, n: nat) {
    && s.sent == {t, u} && AllWellFormed(s.frames)
    && if n < |m.pieces| then Holding(s.frames, m, Positions(n), 0.0) else (m.peer, Concat(m.pieces)) in s.emitted
  }

  lemma BothAreSent(t: Sent, u: Sent, timeout: real) returns (events: seq<Event>)
    requires ValidSent(t) && ValidSent(u)
    ensures IsRun(events, timeout) && OnlySends(events, t, u)
    ensures StateAfter(events, timeout) == State({t, u}, map[], {})
  {
    RunOfMore([], Send(t), timeout);
    RunOfMore([Send(t)], Send(u), timeout);
    events := [Send(t), Send(u)];
    assert [] + [Send(t)] == [Send(t)] && [Send(t)] + [Send(u)] == events;
    assert StateAfter([], timeout) == START;
  }

  lemma PieceIsHonest(t: Sent, u: Sent, i: nat, part: nat)
    requires Rivals(t, u) && ValidSent(t) && ValidSent(u) && i < |t.pieces| && 1 <= part <= |t.pieces|
    ensures ValidSent(Mixture(t, u, i))
    ensures Honest({t, u}, Delivery(t.peer, Datagram(Mixture(t, u, i), part), 0.0))
  {
    var k := part - 1;
    var source := if k == i then u else t;
    assert FrameOf(t.id, Mixture(t, u, i).pieces, k) == FrameOf(source.id, source.pieces, k);
  }

  lemma FullOnlyAtTheEnd(n: nat, total: nat)
    requires n < total
    ensures Positions(n) + {n + 1} == Positions(n + 1)
    ensures Positions(n + 1) == Positions(total) <==> n + 1 == total
  {
    assert |Positions(n + 1)| == n + 1 && |Positions(total)| == total;
  }

  lemma OneMorePart(s: State, t: Sent, u: Sent, m: Sent, n: nat, timeout: real)
    requires ValidSent(m) && 1 <= n < |m.pieces| && timeout > 0.0 && MixedUpTo(s, t, u, m, n)
    ensures MixedUpTo(Step(s, Deliver(Delivery(m.peer, Datagram(m, n + 1), 0.0)), timeout), t, u, m, n + 1)
  {
    var d := Delivery(m.peer, Datagram(m, n + 1), 0.0);
    ReceiveKeepsWellFormed(s.frames, d, timeout);
    PartIsKept(s.frames, d, m, n + 1, Positions(n), 0.0, timeout);
    FullOnlyAtTheEnd(n, |m.pieces|);
  }

  lemma FirstPart(t: Sent, u: Sent, m: Sent, timeout: real)
    requires ValidSent(m) && |m.pieces| > 1
    ensures MixedUpTo(Step(State({t, u}, map[], {}), Deliver(Delivery(m.peer, Datagram(m, 1), 0.0)), timeout), t, u,
        m, 1)
  {
    var d := Delivery(m.peer, Datagram(m, 1), 0.0);
    ReceiveKeepsWellFormed(map[], d, timeout);
    PartOneRestarts(map[], d, m, timeout);
    assert Positions(1) == {1};
  }

  lemma {:induction false} MixingRun(t: Sent, u: Sent, i: nat, n: nat, timeout: real) returns (events: seq<Event>)
    requires Rivals(t, u) && ValidSent(t) && ValidSent(u) && i < |t.pieces| && 1 <= n <= |t.pieces| && timeout > 0.0
    ensures IsRun(events, timeout) && OnlySends(events, t, u)
    ensures MixedUpTo(StateAfter(events, timeout), t, u, Mixture(t, u, i), n)
    decreases n
  {
    var m := Mixture(t, u, i);
    PieceIsHonest(t, u, i, n);
    var d := Delivery(m.peer, Datagram(m, n), 0.0);
    var before: seq<Event>;
    if n == 1 {
      before := BothAreSent(t, u, timeout);
      FirstPart(t, u, m, timeout);
    } else {
      before := MixingRun(t, u, i, n - 1, timeout);
      OneMorePart(StateAfter(before, timeout), t, u, m, n - 1, timeout);
    }
    RunOfMore(before, Deliver(d), timeout);
    events := before + [Deliver(d)];
  }

  // ---------------------------------------------------------------- exactly when

  /** In some run in which only these two are sent, a payload is handed up that is neither. */
  ghost predicate CanMix(t: Sent, u: Sent, timeout: real) {
    exists events, e :: && IsRun(events, timeout) && OnlySends(events, t, u) && e in StateAfter(events, timeout).emitted
                        && e.1 != Concat(t.pieces) && e.1 != Concat(u.pieces)
  }

  lemma {:induction false} OnlyThoseAreSent(events: seq<Event>, t: Sent, u: Sent, timeout: real)
    requires OnlySends(events, t, u)
    ensures StateAfter(events, timeout).sent <= {t, u}
  {
    if events != [] {
      OnlyThoseAreSent(events[..|events| - 1], t, u, timeout);
    }
  }

  lemma DifferTwiceIsSymmetric(t: Sent, u: Sent)
    requires DifferTwice(t, u)
    ensures DifferTwice(u, t)
  {
    var i, j :| i < j && DifferAt(t, u, i) && DifferAt(t, u, j);
    assert DifferAt(u, t, i) && DifferAt(u, t, j);
  }

  lemma AlikeDoNotMix(t: Sent, u: Sent, timeout: real)
    requires ValidSent(t) && ValidSent(u) && !(Rivals(t, u) && DifferTwice(t, u))
    ensures !CanMix(t, u, timeout)
  {
    if Rivals(u, t) && DifferTwice(u, t) {
      DifferTwiceIsSymmetric(u, t);
    }
    forall events, e | IsRun(events, timeout) && OnlySends(events, t, u) && e in StateAfter(events, timeout).emitted
      ensures e.1 == Concat(t.pieces) || e.1 == Concat(u.pieces)
    {
      OnlyThoseAreSent(events, t, u, timeout);
      EmittedWasSent(events, timeout);
      assert WasSent(StateAfter(events, timeout).sent, e.0, e.1);
    }
  }

  lemma DifferentMix(t: Sent, u: Sent, size: nat, timeout: real)
    requires ValidSent(t) && ValidSent(u) && Cut(t.pieces, size) && Cut(u.pieces, size) && timeout > 0.0
    requires Rivals(t, u) && DifferTwice(t, u)
    ensures CanMix(t, u, timeout)
  {
    var i, j :| i < j && DifferAt(t, u, i) && DifferAt(t, u, j);
    MixtureIsNeither(t, u, i, j, size);
    var events := MixingRun(t, u, i, |t.pieces|, timeout);
    assert (t.peer, Concat(Mixture(t, u, i).pieces)) in StateAfter(events, timeout).emitted;
  }

  /**
   * Two payloads can come out as a third if and only if they are of one peer, with one frame id and one number of
   * pieces, more than one, and differ in at least two pieces.
   */
  lemma MixesExactlyWhen(t: Sent, u: Sent, size: nat, timeout: real)
    requires ValidSent(t) && ValidSent(u) && Cut(t.pieces, size) && Cut(u.pieces, size) && timeout > 0.0
    ensures CanMix(t, u, timeout) <==> Rivals(t, u) && DifferTwice(t, u)
  {
    if Rivals(t, u) && DifferTwice(t, u) {
      DifferentMix(t, u, size, timeout);
    } else {
      AlikeDoNotMix(t, u, timeout);
    }
  }
}
