/** The proof of work of DHT records and of route requests. */
module ProofOfWork {
  import opened DhtRecords
  import opened DhtSignatures
  import opened Ordering
  import Crypto
  import RouteNetwork
  import RoutePaths
  import opened Wrappers

  // ---------------------------------------------------------------- the test on a hash

  function Pow2(n: nat): (r: nat)
    ensures r >= 1
  {
    if n == 0 then 1 else 2 * Pow2(n - 1)
  }

  function BitChar(n: nat): char {
    if n % 2 == 0 then '0' else '1'
  }

  /** `bin(n)[2:]`. */
  function Binary(n: nat): string {
    if n < 2 then [BitChar(n)] else Binary(n / 2) + [BitChar(n)]
  }

  function Zeros(n: int): (r: string)
    ensures |r| == if n < 0 then 0 else n
    ensures forall i :: 0 <= i < |r| ==> r[i] == '0'
  {
    if n <= 0 then "" else Zeros(n - 1) + "0"
  }

  /** `s.zfill(width)` for a string without a sign. */
  function ZeroFill(s: string, width: nat): string {
    Zeros(width - |s|) + s
  }

  predicate StartsWith(s: string, prefix: string) {
    |prefix| <= |s| && s[..|prefix|] == prefix
  }

  predicate Meets(hash: nat, width: nat, difficulty: int) {
    difficulty <= 0 || StartsWith(ZeroFill(Binary(hash), width), Zeros(difficulty))
  }

  lemma {:induction false} BinaryFits(n: nat, width: nat)
    requires n < Pow2(width) && width >= 1
    ensures 1 <= |Binary(n)| <= width
  {
    if n >= 2 {
      BinaryFits(n / 2, width - 1);
    }
  }

  lemma {:induction false} BinaryLeads(n: nat)
    requires n > 0
    ensures |Binary(n)| > 0 && Binary(n)[0] == '1'
  {
    if n >= 2 {
      BinaryLeads(n / 2);
    }
  }

  lemma FilledInit(s: string, c: char, width: nat)
    requires |s| < width
    ensures |ZeroFill(s + [c], width)| == width
    ensures ZeroFill(s + [c], width)[..width - 1] == ZeroFill(s, width - 1)
  {
  }

  lemma ZeroIsNothing(width: nat)
    requires width >= 1
    ensures ZeroFill("0", width) == ZeroFill("", width)
  {
    assert Zeros(width) == Zeros(width - 1) + "0";
  }

  lemma FilledDigit(n: nat, width: nat)
    requires n < 2 && width >= 2
    ensures |ZeroFill(Binary(n), width)| == width
    ensures ZeroFill(Binary(n), width)[..width - 1] == ZeroFill("0", width - 1)
  {
    assert "" + [BitChar(n)] == Binary(n);
    FilledInit("", BitChar(n), width);
    ZeroIsNothing(width - 1);
  }

  lemma FilledHalf(n: nat, width: nat)
    requires width >= 2 && |Binary(n / 2)| < width
    ensures |ZeroFill(Binary(n), width)| == width
    ensures ZeroFill(Binary(n), width)[..width - 1] == ZeroFill(Binary(n / 2), width - 1)
  {
    if n >= 2 {
      FilledInit(Binary(n / 2), BitChar(n), width);
    } else {
      FilledDigit(n, width);
    }
  }

  lemma AllZeros(n: nat, width: nat)
    requires n < Pow2(width) && width >= 1
    ensures StartsWith(ZeroFill(Binary(n), width), Zeros(width)) <==> n == 0
  {
    BinaryFits(n, width);
    var s := ZeroFill(Binary(n), width);
    if n > 0 {
      BinaryLeads(n);
      assert s[..width][width - |Binary(n)|] == '1';
    } else {
      assert s == Zeros(width);
    }
  }

  lemma HalfIsBelow(n: nat, k: nat)
    ensures n < Pow2(k + 1) <==> n / 2 < Pow2(k)
  {
  }

  lemma InitStartsWith(s: string, prefix: string)
    requires |prefix| < |s|
    ensures StartsWith(s, prefix) <==> StartsWith(s[..|s| - 1], prefix)
  {
    assert s[..|s| - 1][..|prefix|] == s[..|prefix|];
  }

  lemma {:induction false} LeadingZeros(n: nat, width: nat, d: nat)
    requires n < Pow2(width) && 1 <= d <= width
    ensures StartsWith(ZeroFill(Binary(n), width), Zeros(d)) <==> n < Pow2(width - d)
    decreases width
  {
    if d == width {
      AllZeros(n, width);
    } else {
      HalfIsBelow(n, width - 1);
      HalfIsBelow(n, width - 1 - d);
      BinaryFits(n / 2, width - 1);
      FilledHalf(n, width);
      LeadingZeros(n / 2, width - 1, d);
      InitStartsWith(ZeroFill(Binary(n), width), Zeros(d));
    }
  }

  /** A hash of `width` bits passes exactly when it is below 2 to the power of `width` less the difficulty. */
  lemma DifficultyIsThreshold(hash: nat, width: nat, difficulty: int)
    requires hash < Pow2(width) && width >= 1
    ensures difficulty <= 0 ==> Meets(hash, width, difficulty)
    ensures 1 <= difficulty <= width ==> (Meets(hash, width, difficulty) <==> hash < Pow2(width - difficulty))
    ensures difficulty > width ==> !Meets(hash, width, difficulty)
  {
    BinaryFits(hash, width);
    if 1 <= difficulty <= width {
      LeadingZeros(hash, width, difficulty);
    }
  }

  lemma {:induction false} Pow2Grows(a: nat, b: nat)
    requires a <= b
    ensures Pow2(a) <= Pow2(b)
  {
    if a < b {
      Pow2Grows(a, b - 1);
    }
  }

  /** What passes a difficulty passes every lower one. */
  lemma EasierIsMet(hash: nat, width: nat, difficulty: int, easier: int)
    requires hash < Pow2(width) && width >= 1 && easier <= difficulty && Meets(hash, width, difficulty)
    ensures Meets(hash, width, easier)
  {
    DifficultyIsThreshold(hash, width, difficulty);
    DifficultyIsThreshold(hash, width, easier);
    if easier >= 1 {
      Pow2Grows(width - difficulty, width - easier);
    }
  }

  // ---------------------------------------------------------------- records

  const HASH_BITS: nat := 512

  /** SHA-512 over canonical material, a bar and the nonce in decimal; `digest` is any function into 512 bits. */
  datatype Hasher = Hasher(digest: (Material, int) -> nat, routeDigest: (Option<string>, int) -> nat)

  ghost predicate Sound(h: Hasher) {
    && (forall m, n :: h.digest(m, n) < Pow2(HASH_BITS))
    && (forall p, n :: h.routeDigest(p, n) < Pow2(HASH_BITS))
  }

  /** `build_payload_pow_details(...)["is_valid"]`. */
  predicate Accepts(h: Hasher, m: Material, nonce: int, difficulty: int) {
    nonce >= 0 && Meets(h.digest(m, nonce), HASH_BITS, difficulty)
  }

  ghost predicate LeastAccepted(h: Hasher, m: Material, nonce: int, difficulty: int) {
    Accepts(h, m, nonce, difficulty) && forall n :: n < nonce ==> !Accepts(h, m, n, difficulty)
  }

  datatype PowError = Unsupported | NoVirtualNode

  /** The parts of a payload that carry a nonce each, without it. */
  function Parts(o: Oracle, key: string, p: Payload): seq<Material> {
    match p
    case Dpnt(physicalKey, description, signature, _) => [RecordMaterial(key,
        Dpnt(physicalKey, description, signature, 0))]
    case Dpt(owner, name, content, lastModified, target, mark, _) =>
      [RecordMaterial(key, Dpt(owner, name, content, lastModified, target, mark, 0))]
    case Drt(virtualKey, routes, _) =>
      seq(|routes|, i requires 0 <= i < |routes| => DrtMaterial(key, o.hash(virtualKey), routes[i].(powNonce := 0)))
    case Ddt(_, _, _, holders) => seq(|holders|, i requires 0 <= i < |holders| => HolderMaterial(key,
        holders[i].(powNonce := 0)))
    case Dtt(entries) => seq(|entries|, i requires 0 <= i < |entries| => DttMaterial(key, entries[i].(powNonce := 0)))
  }

  function Nonces(p: Payload): seq<int> {
    match p
    case Dpnt(_, _, _, nonce) => [nonce]
    case Dpt(_, _, _, _, _, _, nonce) => [nonce]
    case Drt(_, routes, _) => seq(|routes|, i requires 0 <= i < |routes| => routes[i].powNonce)
    case Ddt(_, _, _, holders) => seq(|holders|, i requires 0 <= i < |holders| => holders[i].powNonce)
    case Dtt(entries) => seq(|entries|, i requires 0 <= i < |entries| => entries[i].powNonce)
  }

  predicate Supported(table: string, p: Payload) {
    match NamespaceOf(table)
    case DpntTable => p.Dpnt?
    case DrtTable => p.Drt?
    case DdtTable => p.Ddt?
    case DttTable => p.Dtt?
    case DptTable => p.Dpt?
    case OtherTable => false
  }

  /** A route entry has no material without its virtual node. */
  predicate Nameless(p: Payload) {
    p.Drt? && p.virtualKey == "" && p.routes != []
  }

  function AllAccepted(h: Hasher, parts: seq<Material>, nonces: seq<int>, difficulty: int): (r: bool)
    requires |parts| == |nonces|
    ensures r <==> forall i :: 0 <= i < |parts| ==> Accepts(h, parts[i], nonces[i], difficulty)
  {
    parts == [] || (Accepts(h, parts[0], nonces[0], difficulty) && AllAccepted(h, parts[1..], nonces[1..], difficulty))
  }

  lemma PartsHaveNonces(o: Oracle, key: string, p: Payload)
    ensures |Parts(o, key, p)| == |Nonces(p)|
  {
  }

  /** `validate_payload_pow`. */
  function Validate(h: Hasher, o: Oracle, table: string, key: string, p: Payload, difficulty: int): Result<bool,
      PowError> {
    if !Supported(table, p) then Ok(false)
    else if Nameless(p) then Err(NoVirtualNode)
    else
      PartsHaveNonces(o, key, p);
      Ok(Parts(o, key, p) != [] && AllAccepted(h, Parts(o, key, p), Nonces(p), difficulty))
  }

  /** Two payloads that differ in nonces only. */
  ghost predicate SameButNonces(p: Payload, q: Payload) {
    match p
    case Dpnt(_, _, _, _) => q.Dpnt? && q == p.(powNonce := q.powNonce)
    case Dpt(_, _, _, _, _, _, _) => q.Dpt? && q == p.(nonce := q.nonce)
    case Drt(_, routes, _) =>
      && q.Drt? && q == p.(routes := q.routes) && |q.routes| == |routes|
      && forall i :: 0 <= i < |routes| ==> q.routes[i].(powNonce := 0) == routes[i].(powNonce := 0)
    case Ddt(_, _, _, holders) =>
      && q.Ddt? && q == p.(holders := q.holders) && |q.holders| == |holders|
      && forall i :: 0 <= i < |holders| ==> q.holders[i].(powNonce := 0) == holders[i].(powNonce := 0)
    case Dtt(entries) =>
      && q.Dtt? && |q.entries| == |entries|
      && forall i :: 0 <= i < |entries| ==> q.entries[i].(powNonce := 0) == entries[i].(powNonce := 0)
  }

  /** A payload with these nonces. */
  function Stamped(p: Payload, nonces: seq<int>): Payload
    requires |nonces| == |Nonces(p)|
  {
    match p
    case Dpnt(physicalKey, description, signature, _) => Dpnt(physicalKey, description, signature, nonces[0])
    case Dpt(owner, name, content, lastModified, target, mark, _) =>
      Dpt(owner, name, content, lastModified, target, mark, nonces[0])
    case Drt(virtualKey, routes, lastUpdate) =>
      Drt(virtualKey, seq(|routes|, i requires 0 <= i < |routes| => routes[i].(powNonce := nonces[i])), lastUpdate)
    case Ddt(title, kind, tags, holders) =>
      Ddt(title, kind, tags, seq(|holders|, i requires 0 <= i < |holders| => holders[i].(powNonce := nonces[i])))
    case Dtt(entries) => Dtt(seq(|entries|, i requires 0 <= i < |entries| => entries[i].(powNonce := nonces[i])))
  }

  ghost predicate LeastThroughout(h: Hasher, parts: seq<Material>, nonces: seq<int>, difficulty: int) {
    |parts| == |nonces| && forall i :: 0 <= i < |parts| ==> LeastAccepted(h, parts[i], nonces[i], difficulty)
  }

  ghost predicate Reachable(h: Hasher, m: Material, difficulty: int) {
    exists nonce :: Accepts(h, m, nonce, difficulty)
  }

  /** `_with_payload_pow_nonce`: the search comes back only if there is something to find. */
  method LeastNonce(h: Hasher, m: Material, difficulty: int) returns (nonce: int)
    requires Reachable(h, m, difficulty)
    ensures LeastAccepted(h, m, nonce, difficulty)
  {
    if difficulty <= 0 {
      return 0;
    }
    ghost var found :| Accepts(h, m, found, difficulty);
    nonce := 0;
    while !Accepts(h, m, nonce, difficulty)
      invariant 0 <= nonce <= found
      invariant forall n :: n < nonce ==> !Accepts(h, m, n, difficulty)
      decreases found - nonce
    {
      nonce := nonce + 1;
    }
  }

  /** No nonce is ever accepted beyond 512 bits, so the search does not come back. */
  lemma BeyondTheHashNothingIsFound(h: Hasher, m: Material, difficulty: int)
    requires Sound(h) && difficulty > HASH_BITS
    ensures !Reachable(h, m, difficulty)
  {
    forall n ensures !Accepts(h, m, n, difficulty) {
      DifficultyIsThreshold(h.digest(m, n), HASH_BITS, difficulty);
    }
  }

  /** The least accepted nonce of each part. */
  method LeastNonces(h: Hasher, parts: seq<Material>, difficulty: int) returns (nonces: seq<int>)
    requires forall m :: m in parts ==> Reachable(h, m, difficulty)
    ensures LeastThroughout(h, parts, nonces, difficulty)
  {
    nonces := [];
    for k := 0 to |parts|
      invariant LeastThroughout(h, parts[..k], nonces, difficulty)
    {
      assert parts[k] in parts;
      var nonce := LeastNonce(h, parts[k], difficulty);
      nonces := nonces + [nonce];
    }
    assert parts[..|parts|] == parts;
  }

  /** `attach_payload_pow_nonces`: only nonces change, and each becomes the least accepted one. */
  method Attach(h: Hasher, o: Oracle, table: string, key: string, p: Payload, difficulty: int)
    returns (r: Result<Payload, PowError>)
    requires forall m :: m in Parts(o, key, p) ==> Reachable(h, m, difficulty)
    ensures r.Err? <==> !Supported(table, p) || Nameless(p)
    ensures r.Ok? ==> SameButNonces(p, r.value) && LeastThroughout(h, Parts(o, key, p), Nonces(r.value), difficulty)
  {
    if !Supported(table, p) {
      return Err(Unsupported);
    }
    if Nameless(p) {
      return Err(NoVirtualNode);
    }
    var nonces := LeastNonces(h, Parts(o, key, p), difficulty);
    r := Ok(Stamped(p, nonces));
    assert Nonces(Stamped(p, nonces)) == nonces;
  }

  /** Nonces are not part of what is hashed. */
  lemma NoncesAreNotHashed(o: Oracle, key: string, p: Payload, q: Payload)
    requires SameButNonces(p, q)
    ensures Parts(o, key, p) == Parts(o, key, q)
  {
  }

  /** A part of a payload that carries a nonce of its own. */
  datatype Part =
    | RoutePart(virtualNode: string, entry: DrtEntry)
    | HolderPart(holder: Holder)
    | EntryPart(dttEntry: DttEntry)
    | RecordPart(record: Payload)

  /** Part i of a payload with its nonce blanked out. */
  function PartAt(o: Oracle, p: Payload, i: nat): Part
    requires i < |Nonces(p)|
  {
    match p
    case Dpnt(_, _, _, _) => RecordPart(p.(powNonce := 0))
    case Dpt(_, _, _, _, _, _, _) => RecordPart(p.(nonce := 0))
    case Drt(virtualKey, routes, _) => RoutePart(o.hash(virtualKey), routes[i].(powNonce := 0))
    case Ddt(_, _, _, holders) => HolderPart(holders[i].(powNonce := 0))
    case Dtt(entries) => EntryPart(entries[i].(powNonce := 0))
  }

  /**
   * The converse: apart from nonces everything is hashed. Two parts, wherever they are, have the same material exactly
   * if they are the same part under the same key.
   */
  lemma MaterialsTellPartsApart(o: Oracle, key: string, other: string, p: Payload, q: Payload, i: nat, j: nat)
    requires i < |Nonces(p)| && j < |Nonces(q)|
    ensures |Parts(o, key, p)| == |Nonces(p)| && |Parts(o, other, q)| == |Nonces(q)|
    ensures Parts(o, key, p)[i] == Parts(o, other, q)[j] <==> key == other && PartAt(o, p, i) == PartAt(o, q, j)
  {
  }

  /** Payloads with the same materials are of one kind and have the same parts, under the same key. */
  lemma MaterialsTellPayloadsApart(o: Oracle, key: string, other: string, p: Payload, q: Payload)
    requires Parts(o, key, p) == Parts(o, other, q) != []
    ensures key == other && |Nonces(p)| == |Nonces(q)|
    ensures forall i :: 0 <= i < |Nonces(p)| ==> PartAt(o, p, i) == PartAt(o, q, i)
    ensures (p.Dpnt? <==> q.Dpnt?) && (p.Drt? <==> q.Drt?) && (p.Ddt? <==> q.Ddt?) && (p.Dtt? <==> q.Dtt?)
    ensures p.Drt? ==> o.hash(p.virtualKey) == o.hash(q.virtualKey)
  {
    forall i: nat | i < |Nonces(p)| ensures key == other && PartAt(o, p, i) == PartAt(o, q, i) {
      PartsHaveNonces(o, key, p);
      PartsHaveNonces(o, other, q);
      MaterialsTellPartsApart(o, key, other, p, q, i, i);
    }
    assert PartAt(o, p, 0) == PartAt(o, q, 0);
  }

  /** The test that records are checked with is the test of this module. */
  ghost predicate ProvesWith(o: Oracle, h: Hasher, difficulty: int) {
    forall m, n :: o.proof(m, n) <==> Accepts(h, m, n, difficulty)
  }

  /** The proof of work that the merge asks of part i. */
  ghost predicate MergeAsksOf(o: Oracle, key: string, p: Payload, i: nat)
    requires i < |Nonces(p)|
  {
    match p
    case Dpnt(_, _, _, nonce) => Worked(o, RecordMaterial(key, p.(powNonce := 0)), nonce)
    case Dpt(_, _, _, _, _, _, nonce) => Worked(o, RecordMaterial(key, p.(nonce := 0)), nonce)
    case Drt(virtualKey, routes, _) =>
      Worked(o, DrtMaterial(key, o.hash(virtualKey), routes[i].(powNonce := 0)), routes[i].powNonce)
    case Ddt(_, _, _, holders) => Worked(o, HolderMaterial(key, holders[i].(powNonce := 0)), holders[i].powNonce)
    case Dtt(entries) => Worked(o, DttMaterial(key, entries[i].(powNonce := 0)), entries[i].powNonce)
  }

  /** The name of the table that a payload belongs in. */
  ghost function TableOf(p: Payload): string {
    match p
    case Dpnt(_, _, _, _) => "dpnt"
    case Drt(_, _, _) => "drt"
    case Ddt(_, _, _, _) => "ddt"
    case Dtt(_) => "dtt"
    case Dpt(_, _, _, _, _, _, _) => "dpt"
  }

  lemma SupportedExactly(table: string, p: Payload)
    ensures Supported(table, p) <==> Lower(table) == TableOf(p)
  {
    NamesAreExact(table);
  }

  /**
   * A payload validates exactly if it is in its table and every part of it, of which there is one, has the work that
   * the merge asks for. Route entries without a virtual node are an error.
   */
  lemma ValidatesExactlyWhenMergeable(h: Hasher, o: Oracle, table: string, key: string, p: Payload, difficulty: int)
    requires ProvesWith(o, h, difficulty)
    ensures Validate(h, o, table, key, p, difficulty) == Ok(true) <==>
            && Lower(table) == TableOf(p) && !(p.Drt? && p.virtualKey == "")
            && |Nonces(p)| > 0 && forall i :: 0 <= i < |Nonces(p)| ==> MergeAsksOf(o, key, p, i)
    ensures Validate(h, o, table, key, p, difficulty).Err? <==>
            Lower(table) == "drt" && p.Drt? && p.virtualKey == "" && |p.routes| > 0
  {
    SupportedExactly(table, p);
    PartsHaveNonces(o, key, p);
    var parts, nonces := Parts(o, key, p), Nonces(p);
    forall i | 0 <= i < |nonces| ensures MergeAsksOf(o, key, p, i) <==> Accepts(h, parts[i], nonces[i], difficulty) {
      assert o.proof(parts[i], nonces[i]) <==> Accepts(h, parts[i], nonces[i], difficulty);
    }
  }

  /** What was given its nonces passes validation, unless there was nothing to give a nonce to. */
  lemma AttachedValidates(h: Hasher, o: Oracle, table: string, key: string, p: Payload, q: Payload, difficulty: int)
    requires Supported(table, p) && !Nameless(p)
    requires SameButNonces(p, q) && LeastThroughout(h, Parts(o, key, p), Nonces(q), difficulty)
    ensures Validate(h, o, table, key, q, difficulty) == Ok(Parts(o, key, p) != [])
  {
    NoncesAreNotHashed(o, key, p, q);
  }

  /** The work is bound to the material: with other nonces, validation is exactly a test of those nonces. */
  lemma ValidationTestsEveryPart(h: Hasher, o: Oracle, table: string, key: string, p: Payload, difficulty: int)
    requires Sound(h) && Supported(table, p) && !Nameless(p) && 1 <= difficulty <= HASH_BITS
    ensures |Parts(o, key, p)| == |Nonces(p)|
    ensures Validate(h, o, table, key, p, difficulty) == Ok(true) <==>
            Parts(o, key, p) != [] &&
            forall i :: 0 <= i < |Nonces(p)| ==>
              Nonces(p)[i] >= 0 && h.digest(Parts(o, key, p)[i], Nonces(p)[i]) < Pow2(HASH_BITS - difficulty)
  {
    PartsHaveNonces(o, key, p);
    var parts, nonces := Parts(o, key, p), Nonces(p);
    forall i | 0 <= i < |parts|
      ensures Accepts(h, parts[i], nonces[i], difficulty) <==>
              nonces[i] >= 0 && h.digest(parts[i], nonces[i]) < Pow2(HASH_BITS - difficulty)
    {
      DifficultyIsThreshold(h.digest(parts[i], nonces[i]), HASH_BITS, difficulty);
    }
  }

  // ---------------------------------------------------------------- route requests

  datatype RouteCreate = RouteCreate(finalKey: string, ttl: int, path: string, nonce: int)

  /** The final node's key as it enters the hash: an empty one reads as absent. */
  function Canonical(r: RouteCreate): Option<string> {
    if r.finalKey == "" then None else Some(r.finalKey)
  }

  predicate RouteAccepts(h: Hasher, r: RouteCreate, difficulty: int) {
    Meets(h.routeDigest(Canonical(r), r.nonce), HASH_BITS, difficulty)
  }

  function Probe(finalKey: string, nonce: int): RouteCreate {
    RouteCreate(finalKey, 1, "pow-probe", nonce)
  }

  method FindValidNonce(h: Hasher, finalKey: string, difficulty: int) returns (nonce: int)
    requires exists n :: n >= 0 && RouteAccepts(h, Probe(finalKey, n), difficulty)
    ensures nonce >= 0 && RouteAccepts(h, Probe(finalKey, nonce), difficulty)
    ensures forall n :: 0 <= n < nonce ==> !RouteAccepts(h, Probe(finalKey, n), difficulty)
  {
    ghost var found :| found >= 0 && RouteAccepts(h, Probe(finalKey, found), difficulty);
    nonce := 0;
    while !RouteAccepts(h, Probe(finalKey, nonce), difficulty)
      invariant 0 <= nonce <= found
      invariant forall n :: 0 <= n < nonce ==> !RouteAccepts(h, Probe(finalKey, n), difficulty)
      decreases found - nonce
    {
      nonce := nonce + 1;
    }
  }

  /** A ROUTE_CREATE of the network as its receiver reads it, with the keys and path ids written out. */
  function AsRouteCreate(keyOf: Crypto.Node -> string, pathOf: Crypto.PathId -> string, m: RouteNetwork.Message)
    : RouteCreate
    requires m.Create?
  {
    RouteCreate(keyOf(m.finalNode), m.ttl, pathOf(m.path), m.nonce)
  }

  /** Every node of the network makes this test of the work, at this difficulty. */
  ghost predicate TestsWork(s: RouteNetwork.Network, h: Hasher, keyOf: Crypto.Node -> string,
                            pathOf: Crypto.PathId -> string, asked: int)
  {
    forall m: RouteNetwork.Message :: m.Create? ==>
      (s.work(m) <==> RouteAccepts(h, AsRouteCreate(keyOf, pathOf, m), asked))
  }

  /** The key of the final node is hashed: two requests have the same material only if they ask for the same node. */
  lemma RequestsAreToldApart(r: RouteCreate, q: RouteCreate)
    ensures Canonical(r) == Canonical(q) <==> r.finalKey == q.finalKey
  {
  }

  /** The work of a request is below the threshold of its difficulty, for the key of its final node and its nonce. */
  lemma RouteWorkIsThreshold(h: Hasher, r: RouteCreate, difficulty: int)
    requires Sound(h)
    ensures var hash := h.routeDigest(if r.finalKey == "" then None else Some(r.finalKey), r.nonce);
            RouteAccepts(h, r, difficulty) <==>
            difficulty <= 0 || (difficulty <= HASH_BITS && hash < Pow2(HASH_BITS - difficulty))
  {
    DifficultyIsThreshold(h.routeDigest(Canonical(r), r.nonce), HASH_BITS, difficulty);
  }

  /** The test looks at the final node and the nonce only. */
  lemma OnlyTheRequestIsTested(h: Hasher, r: RouteCreate, q: RouteCreate, difficulty: int, asked: int)
    requires Sound(h) && asked <= difficulty && r.finalKey == q.finalKey && r.nonce == q.nonce
        && RouteAccepts(h, r, difficulty)
    ensures RouteAccepts(h, q, asked)
  {
    EasierIsMet(h.routeDigest(Canonical(r), r.nonce), HASH_BITS, difficulty, asked);
  }

  /**
   * In every run of the network: if a route was started with a nonce found on the probe, its ROUTE_CREATE passes the
   * test of whatever node it has reached, after any number of hops, with any time left and under any path id.
   */
  lemma RouteNonceTravels(h: Hasher, keyOf: Crypto.Node -> string, pathOf: Crypto.PathId -> string, difficulty: int,
                          asked: int, states: seq<RouteNetwork.Network>, actions: seq<RouteNetwork.Action>, i: nat,
                          j: nat, m: RouteNetwork.Message)
    requires Sound(h) && asked <= difficulty
    requires RouteNetwork.IsRun(states, actions) && i <= j < |states| && TestsWork(states[0], h, keyOf, pathOf, asked)
    requires m in states[j].messages && m.Create?
    requires m.path in states[j].owner && states[j].owner[m.path].route < |states[i].routes|
    requires var route := states[i].routes[states[j].owner[m.path].route];
             RouteAccepts(h, Probe(keyOf(route.finalNode), route.nonce), difficulty)
    ensures states[j].work(m)
  {
    var r := states[j].owner[m.path].route;
    var route := states[i].routes[r];
    RoutePaths.RequestIsUnchanged(states, actions, j, m);
    RoutePaths.RouteKeepsRequest(states, actions, i, j, r);
    RoutePaths.WorkTestIsFixed(states, actions, j);
    OnlyTheRequestIsTested(h, Probe(keyOf(route.finalNode), route.nonce), AsRouteCreate(keyOf, pathOf, m), difficulty,
        asked);
  }
}
