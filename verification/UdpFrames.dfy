/** Cutting a payload into UDP datagrams: the binary header and its exact inverse. */
module UdpFrames {
  import opened Wrappers

  const UINT32_MAX: nat := 4_294_967_295
  const HEADER_SIZE: nat := 12

  /** The bytes of ANUDP_KEEPALIVE_V1. */
  const KEEPALIVE: Bytes :=
      [0x41, 0x4E, 0x55, 0x44, 0x50, 0x5F, 0x4B, 0x45, 0x45, 0x50, 0x41, 0x4C, 0x49, 0x56, 0x45, 0x5F, 0x56, 0x31]

  // ---------------------------------------------------------------- numbers

  function Big4(n: nat): (r: Bytes)
    ensures |r| == 4
  {
    [n / 0x1000000 % 256, n / 0x10000 % 256, n / 0x100 % 256, n % 256]
  }

  function Read4(b: Bytes): (n: nat)
    requires |b| == 4
    ensures n <= UINT32_MAX
  {
    (((b[0] as int) * 256 + b[1]) * 256 + b[2]) * 256 + b[3]
  }

  lemma ReadOfBig(n: nat)
    requires n <= UINT32_MAX
    ensures Read4(Big4(n)) == n
  {
    var a, b := n / 256, n / 0x10000;
    assert b == a / 256 && n / 0x1000000 == b / 256;
  }

  lemma BigOfRead(b: Bytes)
    requires |b| == 4
    ensures Big4(Read4(b)) == b
  {
    var two := (b[0] as int) * 256 + b[1];
    var three := two * 256 + b[2];
    var n := three * 256 + b[3];
    assert n / 0x100 == three && n % 256 == b[3];
    assert n / 0x10000 == three / 256 == two && three % 256 == b[2];
    assert n / 0x1000000 == two / 256 == b[0] && two % 256 == b[1];
  }

  // ---------------------------------------------------------------- one frame

  datatype Frame = Frame(id: nat, part: nat, total: nat, body: Bytes)

  predicate ValidUint32(n: nat) {
    1 <= n <= UINT32_MAX
  }

  predicate ValidPosition(part: nat, total: nat) {
    1 <= part <= UINT32_MAX && 1 <= total <= UINT32_MAX && part <= total
  }

  predicate Encodable(f: Frame) {
    ValidUint32(f.id) && ValidPosition(f.part, f.total)
  }

  datatype FrameError = BadFrameId | BadPosition | DatagramSizeTooSmall | TooManyFragments | FragmentTooLarge

  function Encode(f: Frame): Result<Bytes, FrameError> {
    if !ValidUint32(f.id) then Err(BadFrameId)
    else if !ValidPosition(f.part, f.total) then Err(BadPosition)
    else Ok(Big4(f.id) + Big4(f.part) + Big4(f.total) + f.body)
  }

  /** What `_try_reassemble_data_frame` reads before it looks at any state. */
  function Decode(d: Bytes): Option<Frame> {
    if |d| < HEADER_SIZE then None
    else
      var f := Frame(Read4(d[0..4]), Read4(d[4..8]), Read4(d[8..12]), d[12..]);
      if Encodable(f) then Some(f) else None
  }

  lemma HeaderSlices(a: Bytes, b: Bytes, c: Bytes, body: Bytes)
    requires |a| == 4 && |b| == 4 && |c| == 4
    ensures var d := a + b + c + body; |d| >= 12 && d[0..4] == a && d[4..8] == b && d[8..12] == c && d[12..] == body
  {
  }

  lemma DecodeOfEncode(f: Frame)
    requires Encodable(f)
    ensures Encode(f).Ok? && Decode(Encode(f).value) == Some(f)
  {
    HeaderSlices(Big4(f.id), Big4(f.part), Big4(f.total), f.body);
    ReadOfBig(f.id);
    ReadOfBig(f.part);
    ReadOfBig(f.total);
  }

  /** The highest byte comes first. */
  ghost predicate IsBigEndian(n: nat, b: Bytes) {
    |b| == 4 && n == 0x1000000 * (b[0] as int) + 0x10000 * (b[1] as int) + 0x100 * (b[2] as int) + b[3] as int
  }

  lemma BigIsBigEndian(n: nat)
    requires n <= UINT32_MAX
    ensures IsBigEndian(n, Big4(n))
  {
    ReadOfBig(n);
  }

  /** The twelve bytes of the header are the id, the part and the total; then comes the body. */
  lemma HeaderIsBigEndian(f: Frame)
    requires Encodable(f)
    ensures var d := Encode(f).value;
            && |d| == 12 + |f.body| && d[12..] == f.body
            && IsBigEndian(f.id, d[0..4]) && IsBigEndian(f.part, d[4..8]) && IsBigEndian(f.total, d[8..12])
  {
    HeaderSlices(Big4(f.id), Big4(f.part), Big4(f.total), f.body);
    BigIsBigEndian(f.id);
    BigIsBigEndian(f.part);
    BigIsBigEndian(f.total);
  }

  /** A datagram is read as a frame only if it is that frame's encoding. */
  lemma EncodeOfDecode(d: Bytes)
    requires Decode(d).Some?
    ensures Encode(Decode(d).value) == Ok(d)
  {
    BigOfRead(d[0..4]);
    BigOfRead(d[4..8]);
    BigOfRead(d[8..12]);
    assert d == d[0..4] + d[4..8] + d[8..12] + d[12..];
  }

  /** The keepalive reads as part 0x505F4B45 of 0x4550414C: never a frame, so no frame is taken for a keepalive. */
  lemma NoFrameIsKeepalive(f: Frame)
    ensures Encode(f) != Ok(KEEPALIVE)
    ensures Decode(KEEPALIVE) == None
  {
    var k := KEEPALIVE;
    assert k[4..8] == [0x50, 0x5F, 0x4B, 0x45] && k[8..12] == [0x45, 0x50, 0x41, 0x4C];
    assert Read4(k[4..8]) == 0x505F4B45 && Read4(k[8..12]) == 0x4550414C;
    if Encodable(f) {
      DecodeOfEncode(f);
    }
  }

  // ---------------------------------------------------------------- a payload

  function Chunks(payload: Bytes, size: nat): (r: seq<Bytes>)
    requires size > 0
    ensures forall i :: 0 <= i < |r| ==> 1 <= |r[i]| <= size
    ensures payload == [] <==> r == []
    decreases |payload|
  {
    if payload == [] then []
    else if |payload| <= size then [payload]
    else [payload[..size]] + Chunks(payload[size..], size)
  }

  function Concat(chunks: seq<Bytes>): Bytes {
    if chunks == [] then [] else Concat(chunks[..|chunks| - 1]) + chunks[|chunks| - 1]
  }

  lemma {:induction false} ConcatFromTheFront(chunk: Bytes, chunks: seq<Bytes>)
    ensures Concat([chunk] + chunks) == chunk + Concat(chunks)
  {
    if chunks == [] {
      assert ([chunk] + chunks)[..0] == [];
    } else {
      var init, last := chunks[..|chunks| - 1], chunks[|chunks| - 1];
      ConcatFromTheFront(chunk, init);
      assert ([chunk] + chunks)[..|chunks|] == [chunk] + init;
      assert chunk + Concat(init) + last == chunk + (Concat(init) + last);
    }
  }

  lemma {:induction false} ConcatOfChunks(payload: Bytes, size: nat)
    requires size > 0
    ensures Concat(Chunks(payload, size)) == payload
    decreases |payload|
  {
    if 0 < |payload| <= size {
      assert [payload][..0] == [];
    } else if payload != [] {
      var first, rest := payload[..size], payload[size..];
      ConcatOfChunks(rest, size);
      ConcatFromTheFront(first, Chunks(rest, size));
      assert payload == first + rest;
    }
  }

  /** As many chunks as the payload needs: every one but the last is full. */
  lemma {:induction false} ChunksAreFull(payload: Bytes, size: nat, i: nat)
    requires size > 0 && i < |Chunks(payload, size)| - 1
    ensures |Chunks(payload, size)[i]| == size
    decreases |payload|
  {
    if |payload| > size && i > 0 {
      ChunksAreFull(payload[size..], size, i - 1);
    }
  }

  /** The pieces a payload travels in; an empty payload travels as one empty piece. */
  function Pieces(payload: Bytes, size: nat): seq<Bytes>
    requires size > 0
  {
    var chunks := Chunks(payload, size);
    if chunks == [] then [[]] else chunks
  }

  lemma ConcatOfPieces(payload: Bytes, size: nat)
    requires size > 0
    ensures Pieces(payload, size) != [] && Concat(Pieces(payload, size)) == payload
    ensures forall i :: 0 <= i < |Pieces(payload, size)| ==> |Pieces(payload, size)[i]| <= size
  {
    ConcatOfChunks(payload, size);
    var empty: seq<Bytes> := [[]];
    assert empty[..0] == [] && Concat(empty) == [];
  }

  function FrameOf(id: nat, pieces: seq<Bytes>, i: nat): Frame
    requires i < |pieces|
  {
    Frame(id, i + 1, |pieces|, pieces[i])
  }

  function Encoded(id: nat, pieces: seq<Bytes>): (r: seq<Bytes>)
    requires ValidUint32(id) && |pieces| <= UINT32_MAX
    ensures |r| == |pieces|
    ensures forall i :: 0 <= i < |r| ==> Ok(r[i]) == Encode(FrameOf(id, pieces, i))
  {
    seq(|pieces|, i requires 0 <= i < |pieces| => Encode(FrameOf(id, pieces, i)).value)
  }

  predicate Fit(datagrams: seq<Bytes>, maximum: int) {
    forall i :: 0 <= i < |datagrams| ==> |datagrams[i]| <= maximum
  }

  /** `_new_udp_frame_id` from four random bytes. */
  function FrameId(random: Bytes): (id: nat)
    requires |random| == 4
    ensures ValidUint32(id)
  {
    var n := Read4(random);
    if n == 0 then 1 else n
  }

  /** Different draws give different ids, except that 0 and 1 both give 1; and every id can be drawn. */
  lemma FrameIdsDiffer(a: Bytes, b: Bytes, id: nat)
    requires |a| == |b| == 4 && ValidUint32(id)
    ensures FrameId(a) == FrameId(b) <==> a == b || {a, b} == {[0, 0, 0, 0], [0, 0, 0, 1]}
    ensures FrameId(Big4(id)) == id
  {
    BigOfRead(a);
    BigOfRead(b);
    ReadOfBig(id);
    assert Big4(0) == [0, 0, 0, 0] && Big4(1) == [0, 0, 0, 1];
    assert Read4([0, 0, 0, 0]) == 0 && Read4([0, 0, 0, 1]) == 1;
  }

  function BuildDatagrams(payload: Bytes, maximum: int, random: Bytes): Result<seq<Bytes>, FrameError>
    requires |random| == 4
  {
    if maximum <= HEADER_SIZE then Err(DatagramSizeTooSmall)
    else
      var pieces := Pieces(payload, maximum - HEADER_SIZE);
      if |pieces| > UINT32_MAX then Err(TooManyFragments)
      else
        var datagrams := Encoded(FrameId(random), pieces);
        if Fit(datagrams, maximum) then Ok(datagrams) else Err(FragmentTooLarge)
  }

  /**
   * Building fails only for a limit without room or for more than 2^32 - 1 fragments, never for a fragment's size;
   * otherwise the datagrams decode, in order, to pieces whose concatenation is the payload.
   */
  lemma DatagramsCarryThePayload(payload: Bytes, maximum: int, random: Bytes)
    requires |random| == 4
    ensures BuildDatagrams(payload, maximum, random) != Err(FragmentTooLarge)
    ensures maximum <= HEADER_SIZE ==> BuildDatagrams(payload, maximum, random) == Err(DatagramSizeTooSmall)
    ensures maximum > HEADER_SIZE && |Pieces(payload, maximum - HEADER_SIZE)| > UINT32_MAX ==>
              BuildDatagrams(payload, maximum, random) == Err(TooManyFragments)
    ensures BuildDatagrams(payload, maximum, random).Ok? <==>
            maximum > HEADER_SIZE && |Pieces(payload, maximum - HEADER_SIZE)| <= UINT32_MAX
    ensures BuildDatagrams(payload, maximum, random).Ok? ==>
              var r, pieces := BuildDatagrams(payload, maximum, random).value, Pieces(payload, maximum - HEADER_SIZE);
              && |r| == |pieces| && Concat(pieces) == payload
              && (forall i :: 0 <= i < |r| ==> Decode(r[i]) == Some(FrameOf(FrameId(random), pieces, i)))
              && Fit(r, maximum)
  {
    if maximum > HEADER_SIZE && |Pieces(payload, maximum - HEADER_SIZE)| <= UINT32_MAX {
      var id, pieces := FrameId(random), Pieces(payload, maximum - HEADER_SIZE);
      ConcatOfPieces(payload, maximum - HEADER_SIZE);
      var r := Encoded(id, pieces);
      forall i | 0 <= i < |r| ensures Decode(r[i]) == Some(FrameOf(id, pieces, i)) && |r[i]| <= maximum {
        DecodeOfEncode(FrameOf(id, pieces, i));
      }
    }
  }
}
