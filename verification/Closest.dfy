/** Which nodes are responsible for a key: the K closest by XOR. */
module Closest {
  import opened Ordering
  import opened Wrappers

  // ---------------------------------------------------------------- the XOR metric

  function Xor(a: nat, b: nat): nat
    decreases a + b
  {
    if a == 0 then b
    else if b == 0 then a
    else (a + b) % 2 + 2 * Xor(a / 2, b / 2)
  }

  lemma {:induction false} XorStep(a: nat, b: nat)
    ensures Xor(a, b) % 2 == (a + b) % 2 && Xor(a, b) / 2 == Xor(a / 2, b / 2)
  {
  }

  function Bit(a: nat, i: nat): nat {
    if i == 0 then a % 2 else Bit(a / 2, i - 1)
  }

  /** Every bit of the distance says whether the operands differ there. */
  lemma {:induction false} XorBits(a: nat, b: nat, i: nat)
    ensures Bit(Xor(a, b), i) == 1 <==> Bit(a, i) != Bit(b, i)
  {
    XorStep(a, b);
    if i == 0 {
      Parity(a, b);
    } else {
      XorBits(a / 2, b / 2, i - 1);
      assert Bit(Xor(a, b), i) == Bit(Xor(a, b) / 2, i - 1);
    }
  }

  lemma Parity(a: nat, b: nat)
    ensures (a + b) % 2 == 1 <==> a % 2 != b % 2
  {
  }

  lemma {:induction false} XorSymmetric(a: nat, b: nat)
    ensures Xor(a, b) == Xor(b, a)
    decreases a + b
  {
    if a > 0 && b > 0 {
      XorSymmetric(a / 2, b / 2);
    }
  }

  lemma SameHalves(k: nat, a: nat, b: nat)
    requires (k + a) % 2 == (k + b) % 2 && a / 2 == b / 2
    ensures a == b
  {
  }

  /** From a fixed point no two others are equally far. */
  lemma {:induction false} XorHasNoTies(k: nat, a: nat, b: nat)
    requires Xor(k, a) == Xor(k, b)
    ensures a == b
    decreases k + a + b
  {
    XorStep(k, a);
    XorStep(k, b);
    if k + a + b > 0 {
      XorHasNoTies(k / 2, a / 2, b / 2);
      SameHalves(k, a, b);
    }
  }

  // ---------------------------------------------------------------- node ids

  function Digit(c: char): Option<nat> {
    if '0' <= c <= '9' then Some(c as nat - '0' as nat)
    else if 'a' <= c <= 'f' then Some(c as nat - 'a' as nat + 10)
    else if 'A' <= c <= 'F' then Some(c as nat - 'A' as nat + 10)
    else None
  }

  /** `int(s, 16)` on digits; anything else is an error. */
  function HexValue(s: string): Option<nat> {
    if s == "" then None
    else
      var init, d := s[..|s| - 1], Digit(s[|s| - 1]);
      if d.None? then None
      else if init == "" then d
      else
        var before := HexValue(init);
        if before.None? then None else Some(16 * before.value + d.value)
  }

  lemma DigitIsInjective(c: char, d: char)
    requires Digit(c).Some? && Digit(c) == Digit(d)
    requires ('0' <= c <= '9' || 'a' <= c <= 'f') && ('0' <= d <= '9' || 'a' <= d <= 'f')
    ensures c == d
  {
  }

  /** The sixteen digits, in either case, and no other character. */
  lemma DigitsAreExact(c: char)
    ensures Digit(c).Some? <==> '0' <= c <= '9' || 'a' <= c <= 'f' || 'A' <= c <= 'F'
    ensures Digit(c).Some? ==> Digit(c).value < 16
    ensures Digit(c).Some? ==>
              c == "0123456789abcdef"[Digit(c).value] || c == "0123456789ABCDEF"[Digit(c).value]
  {
  }

  lemma BitsOfMore(n: nat, d: nat, i: nat)
    requires d < 16
    ensures Bit(16 * n + d, i) == if i < 4 then Bit(d, i) else Bit(n, i - 4)
  {
    var m := 16 * n + d;
    assert m / 2 == 8 * n + d / 2 && m / 2 / 2 == 4 * n + d / 4 && m / 2 / 2 / 2 == 2 * n + d / 8;
    assert m / 2 / 2 / 2 / 2 == n;
    if i == 0 {
    } else if i == 1 {
      assert Bit(m, 1) == Bit(m / 2, 0);
    } else if i == 2 {
      assert Bit(m, 2) == Bit(m / 2, 1) == Bit(m / 2 / 2, 0) && Bit(d, 2) == Bit(d / 2, 1) == Bit(d / 2 / 2, 0);
    } else if i == 3 {
      assert Bit(m, 3) == Bit(m / 2, 2) == Bit(m / 2 / 2, 1) == Bit(m / 2 / 2 / 2, 0);
      assert Bit(d, 3) == Bit(d / 2, 2) == Bit(d / 2 / 2, 1) == Bit(d / 2 / 2 / 2, 0);
    } else {
      assert Bit(m, i) == Bit(m / 2, i - 1) == Bit(m / 2 / 2, i - 2) == Bit(m / 2 / 2 / 2, i - 3);
    }
  }

  lemma {:induction false} HexValueExists(s: string)
    ensures HexValue(s).Some? <==> s != "" && forall k :: 0 <= k < |s| ==> Digit(s[k]).Some?
  {
    if |s| > 1 {
      HexValueExists(s[..|s| - 1]);
      assert s == s[..|s| - 1] + [s[|s| - 1]];
    }
  }

  /** Bit by bit, a number is what its digits are: four bits each, the last digit lowest. */
  lemma {:induction false} HexValueBits(s: string, i: nat)
    requires HexValue(s).Some?
    ensures i < 4 * |s| ==> Digit(s[|s| - 1 - i / 4]).Some?
    ensures Bit(HexValue(s).value, i) == if i < 4 * |s| then Bit(Digit(s[|s| - 1 - i / 4]).value, i % 4) else 0
  {
    var n := |s| - 1;
    if n == 0 {
      DigitBits(s[0], i);
    } else {
      HexValueOfMore(s);
      BitsOfMore(HexValue(s[..n]).value, Digit(s[n]).value, i);
      if i >= 4 {
        HexValueBits(s[..n], i - 4);
        FourLess(i);
      }
    }
  }

  lemma FourLess(i: nat)
    requires i >= 4
    ensures (i - 4) / 4 == i / 4 - 1 && (i - 4) % 4 == i % 4
  {
  }

  lemma DigitBits(c: char, i: nat)
    requires Digit(c).Some?
    ensures i >= 4 ==> Bit(Digit(c).value, i) == 0
  {
    BitsOfMore(0, Digit(c).value, i);
    if i >= 4 {
      ZeroHasNoBits(i - 4);
    }
  }

  lemma {:induction false} ZeroHasNoBits(i: nat)
    ensures Bit(0, i) == 0
  {
    if i > 0 {
      ZeroHasNoBits(i - 1);
    }
  }

  lemma HexValueOfMore(s: string)
    requires |s| > 1 && HexValue(s).Some?
    ensures var n := |s| - 1;
            && HexValue(s[..n]).Some? && Digit(s[n]).Some? && Digit(s[n]).value < 16
            && HexValue(s).value == 16 * HexValue(s[..n]).value + Digit(s[n]).value
  {
  }

  lemma SameQuotient(x: nat, y: nat, a: nat, b: nat)
    requires a < 16 && b < 16 && 16 * x + a == 16 * y + b
    ensures x == y && a == b
  {
  }

  lemma {:induction false} HexValueIsInjective(s: string, t: string)
    requires |s| == |t| && IsHexDigest(s) && IsHexDigest(t)
    requires HexValue(s).Some? && HexValue(s) == HexValue(t)
    ensures s == t
  {
    var n := |s| - 1;
    if n > 0 {
      HexValueOfMore(s);
      HexValueOfMore(t);
      SameQuotient(HexValue(s[..n]).value, HexValue(t[..n]).value, Digit(s[n]).value, Digit(t[n]).value);
      HexValueIsInjective(s[..n], t[..n]);
    }
    DigitIsInjective(s[n], t[n]);
    assert s == s[..n] + [s[n]] && t == t[..n] + [t[n]];
  }

  function Distance(key: string, id: string): Option<nat> {
    if HexValue(key).None? || HexValue(id).None? then None
    else Some(Xor(HexValue(key).value, HexValue(id).value))
  }

  /** Different ids are at different distances. */
  ghost predicate NoTies(key: string, ids: set<string>) {
    forall a, b :: a in ids && b in ids && Distance(key, a).Some? && Distance(key, a) == Distance(key, b) ==> a == b
  }

  /** Two ids are at the same distance exactly if they stand for the same number. */
  lemma TiedExactlyWhen(key: string, a: string, b: string)
    requires HexValue(key).Some?
    ensures Distance(key, a) == Distance(key, b) <==> HexValue(a) == HexValue(b)
  {
    if Distance(key, a).Some? && Distance(key, a) == Distance(key, b) {
      XorHasNoTies(HexValue(key).value, HexValue(a).value, HexValue(b).value);
    }
  }

  /** Ids written as SHA-512 digests are never tied. */
  lemma DigestsHaveNoTies(key: string, ids: set<string>, length: nat)
    requires forall id :: id in ids ==> |id| == length && IsHexDigest(id)
    ensures NoTies(key, ids)
  {
    forall a, b | a in ids && b in ids && Distance(key, a).Some? && Distance(key, a) == Distance(key, b)
      ensures a == b
    {
      TiedExactlyWhen(key, a, b);
      HexValueIsInjective(a, b);
    }
  }

  /** A leading zero spells the same number, so ids of different lengths can be tied, for every key. */
  lemma SpellingsTie(key: string, id: string)
    requires HexValue(key).Some? && HexValue(id).Some?
    ensures HexValue("0" + id) == HexValue(id) && !NoTies(key, {id, "0" + id})
  {
    LeadingZero(id);
    TiedExactlyWhen(key, id, "0" + id);
    assert Distance(key, id) == Distance(key, "0" + id) && id != "0" + id;
  }

  lemma {:induction false} LeadingZero(id: string)
    requires HexValue(id).Some?
    ensures HexValue("0" + id) == HexValue(id)
  {
    var s, n := "0" + id, |id| - 1;
    if n == 0 {
      assert s[..1] == "0" && HexValue("0") == Some(0);
      assert id[..0] == "";
    } else {
      HexValueOfMore(id);
      LeadingZero(id[..n]);
      assert s[..|s| - 1] == "0" + id[..n];
    }
  }

  // ---------------------------------------------------------------- candidates

  datatype Candidate = Candidate(nodeId: string, isLocal: bool, publicKey: string)

  datatype Ranked = Ranked(node: Candidate, distance: nat)

  datatype SelectError = NoKey | NotHexadecimal

  function FirstIds(cs: seq<Candidate>): (r: seq<string>)
    ensures forall i, j :: 0 <= i < j < |r| ==> r[i] != r[j]
    ensures forall id :: id in r <==> id != "" && exists i :: 0 <= i < |cs| && cs[i].nodeId == id
  {
    if cs == [] then []
    else
      var init, last := cs[..|cs| - 1], cs[|cs| - 1];
      var before := FirstIds(init);
      assert forall i :: 0 <= i < |cs| ==> cs[i] == if i < |init| then init[i] else last;
      if last.nodeId == "" || last.nodeId in before then before else before + [last.nodeId]
  }

  ghost function Ids(cs: seq<Candidate>): set<string> {
    set id | id in FirstIds(cs)
  }

  /** The candidate that stands for an id: the last local one, or else the first. */
  function Chosen(cs: seq<Candidate>, id: string): (r: Option<Candidate>)
    ensures r.Some? <==> exists i :: 0 <= i < |cs| && cs[i].nodeId == id
    ensures r.Some? ==> r.value in cs && r.value.nodeId == id
    ensures r.Some? ==> (r.value.isLocal <==> exists i :: 0 <= i < |cs| && cs[i].nodeId == id && cs[i].isLocal)
    ensures r.Some? ==>
              exists i :: 0 <= i < |cs| && cs[i] == r.value && IsTheOne(cs, id, i)
  {
    if cs == [] then None
    else
      var init, last := cs[..|cs| - 1], cs[|cs| - 1];
      var before := Chosen(init, id);
      assert forall i :: 0 <= i < |cs| ==> cs[i] == if i < |init| then init[i] else last;
      if last.nodeId == id && (before.None? || last.isLocal) then Some(last) else before
  }

  /** If it is local, no local one comes later; if not, nobody with that id comes earlier. */
  ghost predicate IsTheOne(cs: seq<Candidate>, id: string, i: nat)
    requires i < |cs|
  {
    forall j :: 0 <= j < |cs| && cs[j].nodeId == id ==> if cs[i].isLocal then j > i ==> !cs[j].isLocal else i <= j
  }

  /** Ids are listed in the order in which they first appear. */
  lemma {:induction false} FirstIdsInOrder(cs: seq<Candidate>, n: nat)
    requires n <= |cs|
    ensures FirstIds(cs[..n]) <= FirstIds(cs)
    decreases |cs|
  {
    if n < |cs| {
      FirstIdsInOrder(cs[..|cs| - 1], n);
      assert cs[..|cs| - 1][..n] == cs[..n];
    } else {
      assert cs[..n] == cs;
    }
  }

  function Deduplicated(cs: seq<Candidate>): seq<Candidate> {
    var ids := FirstIds(cs);
    assert forall i :: 0 <= i < |ids| ==> ids[i] in ids;
    seq(|ids|, i requires 0 <= i < |ids| && Chosen(cs, ids[i]).Some? => Chosen(cs, ids[i]).value)
  }

  method DeduplicateNodeCandidates(cs: seq<Candidate>) returns (r: seq<Candidate>)
    ensures r == Deduplicated(cs)
  {
    var byId: map<string, Candidate> := map[];
    var order: seq<string> := [];
    for i := 0 to |cs|
      invariant order == FirstIds(cs[..i])
      invariant forall id :: id in byId <==> id in order
      invariant forall id :: id in byId ==> Chosen(cs[..i], id) == Some(byId[id])
    {
      var c := cs[i];
      assert cs[..i + 1][..i] == cs[..i];
      if c.nodeId == "" {
        continue;
      }
      if c.nodeId !in byId {
        assert Chosen(cs[..i], c.nodeId).None?;
        order := order + [c.nodeId];
        byId := byId[c.nodeId := c];
      } else if c.isLocal {
        byId := byId[c.nodeId := c];
      }
    }
    assert cs[..|cs|] == cs;
    r := seq(|order|, i requires 0 <= i < |order| && order[i] in byId => byId[order[i]]);
  }

  // ---------------------------------------------------------------- ranking

  predicate Nearer(a: Ranked, b: Ranked) {
    a.distance < b.distance
  }

  predicate AllHexadecimal(cs: seq<Candidate>) {
    forall i :: 0 <= i < |cs| ==> HexValue(cs[i].nodeId).Some?
  }

  function Measured(key: string, cs: seq<Candidate>): seq<Ranked>
    requires HexValue(key).Some? && AllHexadecimal(cs)
  {
    seq(|cs|, i requires 0 <= i < |cs| => Ranked(cs[i], Distance(key, cs[i].nodeId).value))
  }

  /** Python's `xs[:k]`, which counts from the end for a negative k. */
  function Take<T>(xs: seq<T>, k: int): seq<T> {
    if k >= |xs| then xs else if k >= 0 then xs[..k] else if -k >= |xs| then [] else xs[..|xs| + k]
  }

  function Rank(key: string, unique: seq<Candidate>): Result<seq<Ranked>, SelectError> {
    if unique == [] then Ok([])
    else if HexValue(key).None? || !AllHexadecimal(unique) then Err(NotHexadecimal)
    else Ok(Sort(Measured(key, unique), Nearer))
  }

  method RankNodesByDistance(key: string, unique: seq<Candidate>) returns (r: Result<seq<Ranked>, SelectError>)
    ensures r == Rank(key, unique)
  {
    if unique == [] {
      return Ok([]);
    }
    var ranked: seq<Ranked> := [];
    for i := 0 to |unique|
      invariant |ranked| == i
      invariant forall j :: 0 <= j < i ==> HexValue(key).Some? && HexValue(unique[j].nodeId).Some?
      invariant forall j :: 0 <= j < i ==> ranked[j] == Ranked(unique[j], Distance(key, unique[j].nodeId).value)
    {
      var distance := Distance(key, unique[i].nodeId);
      if distance.None? {
        return Err(NotHexadecimal);
      }
      ranked := ranked + [Ranked(unique[i], distance.value)];
    }
    assert HexValue(unique[0].nodeId).Some?;
    assert ranked == Measured(key, unique);
    r := Ok(Sort(ranked, Nearer));
  }

  function Ranking(key: string, cs: seq<Candidate>): Result<seq<Ranked>, SelectError> {
    if key == "" then Err(NoKey) else Rank(key, Deduplicated(cs))
  }

  /** `select_k_closest_nodes`, without the endpoints: the nodes, and whether a local one is among them. */
  method SelectKClosest(key: string, cs: seq<Candidate>, k: int) returns (r: Result<(seq<Ranked>, bool), SelectError>)
    ensures Ranking(key, cs).Err? ==> r == Err(Ranking(key, cs).error)
    ensures Ranking(key, cs).Ok? ==> r.Ok? && r.value.0 == Take(Ranking(key, cs).value, k)
    ensures r.Ok? ==> (r.value.1 <==> exists i :: 0 <= i < |r.value.0| && r.value.0[i].node.isLocal)
  {
    if key == "" {
      return Err(NoKey);
    }
    var unique := DeduplicateNodeCandidates(cs);
    var ranked := RankNodesByDistance(key, unique);
    if ranked.Err? {
      return Err(ranked.error);
    }
    var selected := Take(ranked.value, k);
    var responsible := AnyLocal(selected);
    r := Ok((selected, responsible));
  }

  method AnyLocal(selected: seq<Ranked>) returns (found: bool)
    ensures found <==> exists i :: 0 <= i < |selected| && selected[i].node.isLocal
  {
    found := false;
    for i := 0 to |selected|
      invariant found <==> exists j :: 0 <= j < i && selected[j].node.isLocal
    {
      found := found || selected[i].node.isLocal;
    }
  }

  // ---------------------------------------------------------------- when there is a ranking

  /** A selection fails exactly without a key, or if an id or, with any id known, the key is not hexadecimal. */
  lemma RankingFailsExactly(key: string, cs: seq<Candidate>)
    ensures Ranking(key, cs) == Err(NoKey) <==> key == ""
    ensures Ranking(key, cs) == Err(NotHexadecimal) <==>
            key != "" && exists id :: id in Ids(cs) && (HexValue(key).None? || HexValue(id).None?)
  {
    var ids, unique := FirstIds(cs), Deduplicated(cs);
    forall i | 0 <= i < |unique| ensures unique[i].nodeId == ids[i] && ids[i] in Ids(cs) {
      assert ids[i] in ids;
    }
    assert forall id :: id in Ids(cs) ==> exists i :: 0 <= i < |ids| && ids[i] == id;
    assert unique != [] ==> unique[0].nodeId in Ids(cs);
  }

  /** The first k, or for a negative k all but the last -k. */
  lemma TakeIsPythons<T>(xs: seq<T>, k: int)
    ensures Take(xs, k) <= xs
    ensures k >= 0 ==> |Take(xs, k)| == k || (|Take(xs, k)| == |xs| < k)
    ensures k < 0 ==> |xs| - |Take(xs, k)| == -k || (Take(xs, k) == [] && |xs| < -k)
  {
  }

  /** Nodes at one distance stay in the order in which they are known. */
  lemma TiesKeepTheirOrder(key: string, cs: seq<Candidate>, x: Ranked)
    requires Ranking(key, cs).Ok? && Deduplicated(cs) != []
    ensures Tied(Ranking(key, cs).value, x, Nearer) == Tied(Measured(key, Deduplicated(cs)), x, Nearer)
  {
    SortIsStable(Measured(key, Deduplicated(cs)), x, Nearer);
  }

  // ---------------------------------------------------------------- what a ranking is

  function Far(key: string, id: string): nat {
    var d := Distance(key, id);
    if d.Some? then d.value else 0
  }

  ghost function Closer(key: string, ids: set<string>, id: string): set<string> {
    set j | j in ids && Far(key, j) < Far(key, id)
  }

  ghost predicate Places(key: string, ids: set<string>, xs: seq<Ranked>) {
    forall i :: 0 <= i < |xs| ==> xs[i].node.nodeId in ids && Distance(key, xs[i].node.nodeId) == Some(xs[i].distance)
  }

  ghost predicate OncePerId(xs: seq<Ranked>) {
    forall i, j :: 0 <= i < j < |xs| ==> xs[i].node.nodeId != xs[j].node.nodeId
  }

  ghost predicate Has(xs: seq<Ranked>, id: string) {
    exists i :: 0 <= i < |xs| && xs[i].node.nodeId == id
  }

  /** Each known id once, from the closest to the farthest. */
  ghost predicate Lists(key: string, ids: set<string>, xs: seq<Ranked>) {
    && Places(key, ids, xs)
    && (forall id :: id in ids ==> Has(xs, id))
    && (forall i, j :: 0 <= i < j < |xs| ==> xs[i].distance < xs[j].distance)
  }

  lemma MeasuredPlaces(key: string, cs: seq<Candidate>)
    requires Rank(key, Deduplicated(cs)).Ok? && Deduplicated(cs) != []
    ensures var xs := Measured(key, Deduplicated(cs));
            Places(key, Ids(cs), xs) && OncePerId(xs) && forall id :: id in Ids(cs) ==> Has(xs, id)
  {
    var ids, xs := FirstIds(cs), Measured(key, Deduplicated(cs));
    forall i | 0 <= i < |xs| ensures xs[i].node.nodeId == ids[i] && ids[i] in Ids(cs) {
      assert ids[i] in ids;
    }
    forall id | id in Ids(cs) ensures Has(xs, id) {
      var i :| 0 <= i < |ids| && ids[i] == id;
      assert xs[i].node.nodeId == id;
    }
  }

  /** Whatever a reordering keeps: entries are known, and no two for one id. */
  lemma Reordered(key: string, ids: set<string>, xs: seq<Ranked>, ys: seq<Ranked>)
    requires multiset(xs) == multiset(ys) && Places(key, ids, xs) && OncePerId(xs)
    ensures Places(key, ids, ys) && OncePerId(ys) && forall id :: Has(xs, id) ==> Has(ys, id)
  {
    forall i | 0 <= i < |ys| ensures ys[i] in xs {
      assert ys[i] in multiset(ys);
    }
    forall i | 0 <= i < |xs| ensures xs[i] in ys {
      assert xs[i] in multiset(xs);
    }
    forall i, j | 0 <= i < j < |ys| ensures ys[i].node.nodeId != ys[j].node.nodeId {
      if ys[i] == ys[j] {
        TwiceCounts(ys, i, j);
        OnceCounts(xs, ys[i]);
      }
    }
  }

  lemma TwiceCounts(ys: seq<Ranked>, i: nat, j: nat)
    requires i < j < |ys| && ys[i] == ys[j]
    ensures multiset(ys)[ys[i]] >= 2
  {
    assert ys == ys[..j] + ys[j..];
    assert ys[i] in multiset(ys[..j]) && ys[j] in multiset(ys[j..]) by {
      assert ys[..j][i] == ys[i] && ys[j..][0] == ys[j];
    }
  }

  lemma {:induction false} OnceCounts(xs: seq<Ranked>, x: Ranked)
    requires OncePerId(xs)
    ensures multiset(xs)[x] <= 1
  {
    if xs != [] {
      assert xs == [xs[0]] + xs[1..];
      OnceCounts(xs[1..], x);
      assert xs[0] !in xs[1..];
    }
  }

  /** The ranking lists every known id once, from the closest to the farthest. */
  lemma RankingLists(key: string, cs: seq<Candidate>)
    requires Ranking(key, cs).Ok? && NoTies(key, Ids(cs))
    ensures Lists(key, Ids(cs), Ranking(key, cs).value)
  {
    var r, unique := Ranking(key, cs).value, Deduplicated(cs);
    if unique == [] {
      assert FirstIds(cs) == [];
    } else {
      MeasuredPlaces(key, cs);
      Reordered(key, Ids(cs), Measured(key, unique), r);
      SortSorts(Measured(key, unique), Nearer);
    }
  }

  // ---------------------------------------------------------------- who is selected

  ghost function Ahead(xs: seq<Ranked>, p: nat): set<string>
    requires p <= |xs|
  {
    set i | 0 <= i < p :: xs[i].node.nodeId
  }

  lemma AheadGrows(key: string, ids: set<string>, xs: seq<Ranked>, p: nat)
    requires Lists(key, ids, xs) && p < |xs|
    ensures Ahead(xs, p + 1) == Ahead(xs, p) + {xs[p].node.nodeId} && xs[p].node.nodeId !in Ahead(xs, p)
  {
    forall i | 0 <= i < p ensures xs[i].node.nodeId != xs[p].node.nodeId {
      assert xs[i].distance < xs[p].distance;
    }
  }

  lemma {:induction false} AheadCounts(key: string, ids: set<string>, xs: seq<Ranked>, p: nat)
    requires Lists(key, ids, xs) && p <= |xs|
    ensures |Ahead(xs, p)| == p
  {
    if p > 0 {
      AheadCounts(key, ids, xs, p - 1);
      AheadGrows(key, ids, xs, p - 1);
    }
  }

  /** The position in a ranking is the number of closer ids. */
  lemma PositionCountsCloser(key: string, ids: set<string>, xs: seq<Ranked>, p: nat)
    requires Lists(key, ids, xs) && p < |xs|
    ensures |Closer(key, ids, xs[p].node.nodeId)| == p
  {
    AheadCounts(key, ids, xs, p);
    forall j | j in Closer(key, ids, xs[p].node.nodeId) ensures j in Ahead(xs, p) {
      assert Has(xs, j);
    }
    assert Closer(key, ids, xs[p].node.nodeId) == Ahead(xs, p);
  }

  /** The selected nodes are exactly the known ones with fewer than k others closer. */
  lemma SelectionIsExact(key: string, cs: seq<Candidate>, k: nat, id: string)
    requires Ranking(key, cs).Ok? && NoTies(key, Ids(cs))
    ensures Has(Take(Ranking(key, cs).value, k), id) <==> id in Ids(cs) && |Closer(key, Ids(cs), id)| < k
  {
    var xs, ids := Ranking(key, cs).value, Ids(cs);
    RankingLists(key, cs);
    forall p | 0 <= p < |xs| && xs[p].node.nodeId == id ensures |Closer(key, ids, id)| == p {
      PositionCountsCloser(key, ids, xs, p);
    }
    if id in ids {
      var p :| 0 <= p < |xs| && xs[p].node.nodeId == id;
      assert p < k ==> Take(xs, k)[p] == xs[p];
    }
  }

  lemma CloserIsMonotone(key: string, ids: set<string>, a: string, b: string)
    requires a in ids && Far(key, a) < Far(key, b)
    ensures |Closer(key, ids, a)| < |Closer(key, ids, b)|
  {
    var one, other := Closer(key, ids, a), Closer(key, ids, b);
    assert a !in one && one + {a} <= other;
    SmallerIsSmaller(one + {a}, other);
  }

  lemma {:induction false} SmallerIsSmaller(a: set<string>, b: set<string>)
    requires a <= b
    ensures |a| <= |b|
  {
    if a != {} {
      var x :| x in a;
      SmallerIsSmaller(a - {x}, b - {x});
    }
  }

  function IdsOf(xs: seq<Ranked>): seq<string> {
    seq(|xs|, i requires 0 <= i < |xs| => xs[i].node.nodeId)
  }

  lemma ListsAreEqual(key: string, ids: set<string>, xs: seq<Ranked>, ys: seq<Ranked>)
    requires NoTies(key, ids) && Lists(key, ids, xs) && Lists(key, ids, ys)
    ensures IdsOf(xs) == IdsOf(ys)
  {
    AheadCounts(key, ids, xs, |xs|);
    AheadCounts(key, ids, ys, |ys|);
    assert Ahead(xs, |xs|) == ids by {
      assert forall id :: id in ids ==> Has(xs, id);
    }
    assert Ahead(ys, |ys|) == ids by {
      assert forall id :: id in ids ==> Has(ys, id);
    }
    forall p | 0 <= p < |xs| ensures xs[p].node.nodeId == ys[p].node.nodeId {
      var a, b := xs[p].node.nodeId, ys[p].node.nodeId;
      PositionCountsCloser(key, ids, xs, p);
      PositionCountsCloser(key, ids, ys, p);
      if Far(key, a) < Far(key, b) {
        CloserIsMonotone(key, ids, a, b);
      } else if Far(key, b) < Far(key, a) {
        CloserIsMonotone(key, ids, b, a);
      }
    }
  }

  lemma IdsOfTaken(xs: seq<Ranked>, k: int)
    ensures IdsOf(Take(xs, k)) == Take(IdsOf(xs), k)
  {
    assert |IdsOf(xs)| == |xs|;
  }

  /** Neither the order of the candidates nor which of them are local decides who is selected, or in which order. */
  lemma SelectionIgnoresOrder(key: string, cs: seq<Candidate>, ds: seq<Candidate>, k: int)
    requires Ranking(key, cs).Ok? && Ranking(key, ds).Ok? && Ids(cs) == Ids(ds) && NoTies(key, Ids(cs))
    ensures IdsOf(Take(Ranking(key, cs).value, k)) == IdsOf(Take(Ranking(key, ds).value, k))
  {
    RankingLists(key, cs);
    RankingLists(key, ds);
    var xs, ys := Ranking(key, cs).value, Ranking(key, ds).value;
    ListsAreEqual(key, Ids(cs), xs, ys);
    IdsOfTaken(xs, k);
    IdsOfTaken(ys, k);
  }

  // ---------------------------------------------------------------- why there must be no ties

  /** The ids selected from a list of candidates. */
  function Selected(key: string, cs: seq<Candidate>, k: int): seq<string> {
    var r := Ranking(key, cs);
    if r.Ok? then IdsOf(Take(r.value, k)) else []
  }

  function Remotes(ids: seq<string>): seq<Candidate> {
    seq(|ids|, i requires 0 <= i < |ids| => Candidate(ids[i], false, ""))
  }

  ghost predicate Listing(xs: seq<string>, ids: set<string>) {
    && (forall i, j :: 0 <= i < j < |xs| ==> xs[i] != xs[j])
    && (forall id :: id in xs <==> id in ids)
  }

  lemma {:induction false} SomeListing(ids: set<string>) returns (xs: seq<string>)
    ensures Listing(xs, ids)
  {
    if ids == {} {
      xs := [];
    } else {
      var id :| id in ids;
      var rest := SomeListing(ids - {id});
      xs := rest + [id];
    }
  }

  lemma {:induction false} RemotesAreUnique(xs: seq<string>)
    requires forall i, j :: 0 <= i < j < |xs| ==> xs[i] != xs[j]
    requires "" !in xs
    ensures FirstIds(Remotes(xs)) == xs
  {
    if xs != [] {
      var init, last := xs[..|xs| - 1], xs[|xs| - 1];
      assert Remotes(xs)[..|xs| - 1] == Remotes(init);
      RemotesAreUnique(init);
      assert last !in init && last in xs;
      assert xs == init + [last];
    }
  }

  lemma RemotesAreChosen(xs: seq<string>)
    requires forall i, j :: 0 <= i < j < |xs| ==> xs[i] != xs[j]
    requires "" !in xs
    ensures Deduplicated(Remotes(xs)) == Remotes(xs)
  {
    RemotesAreUnique(xs);
    forall i | 0 <= i < |xs| ensures Chosen(Remotes(xs), xs[i]) == Some(Candidate(xs[i], false, "")) {
      assert Remotes(xs)[i].nodeId == xs[i];
      var c := Chosen(Remotes(xs), xs[i]).value;
      var j :| 0 <= j < |xs| && Remotes(xs)[j] == c;
    }
  }

  /** How many elements at the front are no farther than d. */
  function Lead(xs: seq<Ranked>, d: nat): (p: nat)
    ensures p <= |xs|
  {
    if xs == [] || d < xs[0].distance then 0 else 1 + Lead(xs[1..], d)
  }

  lemma InsertBehind(x: Ranked, first: Ranked, rest: seq<Ranked>)
    requires first.distance <= x.distance
    ensures Insert(x, [first] + rest, Nearer) == [first] + Insert(x, rest, Nearer)
    ensures Lead([first] + rest, x.distance) == 1 + Lead(rest, x.distance)
  {
    assert ([first] + rest)[1..] == rest;
  }

  ghost predicate InsertedAt(x: Ranked, xs: seq<Ranked>, p: nat, r: seq<Ranked>) {
    p <= |xs| && r == xs[..p] + [x] + xs[p..]
  }

  lemma InsertedFurther(x: Ranked, first: Ranked, rest: seq<Ranked>, p: nat, r: seq<Ranked>)
    requires InsertedAt(x, rest, p, r)
    ensures InsertedAt(x, [first] + rest, p + 1, [first] + r)
  {
    var xs := [first] + rest;
    assert xs[..p + 1] == [first] + rest[..p] && xs[p + 1..] == rest[p..];
  }

  lemma {:induction false} InsertAtLead(x: Ranked, xs: seq<Ranked>)
    ensures InsertedAt(x, xs, Lead(xs, x.distance), Insert(x, xs, Nearer))
  {
    if xs != [] && x.distance >= xs[0].distance {
      var first, rest := xs[0], xs[1..];
      InsertAtLead(x, rest);
      InsertBehind(x, first, rest);
      InsertedFurther(x, first, rest, Lead(rest, x.distance), Insert(x, rest, Nearer));
      assert xs == [first] + rest;
    } else {
      assert InsertedAt(x, xs, 0, [x] + xs);
    }
  }

  lemma {:induction false} LeadAfterInsert(x: Ranked, xs: seq<Ranked>)
    ensures Lead(Insert(x, xs, Nearer), x.distance) == Lead(xs, x.distance) + 1
  {
    var r := Insert(x, xs, Nearer);
    if xs == [] || x.distance < xs[0].distance {
      assert r[1..] == xs;
    } else {
      LeadAfterInsert(x, xs[1..]);
      assert r[1..] == Insert(x, xs[1..], Nearer);
    }
  }

  /** Of two tied nodes the one inserted first stays in front. */
  lemma TiedKeepOrder(a: Ranked, b: Ranked, xs: seq<Ranked>)
    requires a.distance == b.distance
    ensures var r, p := Insert(b, Insert(a, xs, Nearer), Nearer), Lead(xs, a.distance);
            p < |r| && r[p] == a
  {
    var one, p := Insert(a, xs, Nearer), Lead(xs, a.distance);
    InsertAtLead(a, xs);
    LeadAfterInsert(a, xs);
    InsertAtLead(b, one);
    assert one[..p + 1][p] == a;
  }

  lemma TiedDiffer(a: Ranked, b: Ranked, xs: seq<Ranked>)
    requires a.distance == b.distance && a.node.nodeId != b.node.nodeId
    ensures IdsOf(Insert(b, Insert(a, xs, Nearer), Nearer)) != IdsOf(Insert(a, Insert(b, xs, Nearer), Nearer))
  {
    var p := Lead(xs, a.distance);
    TiedKeepOrder(a, b, xs);
    TiedKeepOrder(b, a, xs);
    assert IdsOf(Insert(b, Insert(a, xs, Nearer), Nearer))[p] == a.node.nodeId;
  }

  lemma SortOfTwoMore(xs: seq<Ranked>, a: Ranked, b: Ranked)
    ensures Sort(xs + [a, b], Nearer) == Insert(b, Insert(a, Sort(xs, Nearer), Nearer), Nearer)
  {
    var all := xs + [a, b];
    assert all[..|all| - 1] == xs + [a] && (xs + [a])[..|xs|] == xs;
  }

  /** The ranking of ids that are all there once. */
  lemma RankingOfRemotes(key: string, xs: seq<string>)
    requires HexValue(key).Some? && (forall id :: id in xs ==> HexValue(id).Some?)
    requires forall i, j :: 0 <= i < j < |xs| ==> xs[i] != xs[j]
    ensures AllHexadecimal(Remotes(xs)) && Ranking(key, Remotes(xs)) == Ok(Sort(Measured(key, Remotes(xs)), Nearer))
    ensures forall id :: id in Ids(Remotes(xs)) <==> id in xs
  {
    RemotesAreChosen(xs);
    RemotesAreUnique(xs);
    assert forall i :: 0 <= i < |xs| ==> xs[i] in xs;
  }

  function Measure(key: string, id: string): Ranked
    requires HexValue(key).Some? && HexValue(id).Some?
  {
    Ranked(Candidate(id, false, ""), Distance(key, id).value)
  }

  lemma MeasuredOfTwoMore(key: string, rest: seq<string>, a: string, b: string)
    requires HexValue(key).Some? && AllHexadecimal(Remotes(rest)) && HexValue(a).Some? && HexValue(b).Some?
    ensures AllHexadecimal(Remotes(rest + [a, b]))
    ensures Measured(key, Remotes(rest + [a, b])) == Measured(key, Remotes(rest)) + [Measure(key, a), Measure(key, b)]
  {
    assert Remotes(rest + [a, b]) == Remotes(rest) + [Candidate(a, false, ""), Candidate(b, false, "")];
  }

  /** Every id once, all of them selected: the sorted list. */
  lemma SelectedOfListing(key: string, xs: seq<string>, ids: set<string>)
    requires HexValue(key).Some? && (forall id :: id in ids ==> HexValue(id).Some?) && Listing(xs, ids)
    ensures AllHexadecimal(Remotes(xs)) && Ids(Remotes(xs)) == ids
    ensures Selected(key, Remotes(xs), |ids|) == IdsOf(Sort(Measured(key, Remotes(xs)), Nearer))
  {
    RankingOfRemotes(key, xs);
    AllAreTaken(key, xs, ids);
  }

  /** What is selected when two ids are listed last. */
  lemma SelectedOfTwoMore(key: string, rest: seq<string>, a: string, b: string, ids: set<string>)
    requires HexValue(key).Some? && (forall id :: id in ids ==> HexValue(id).Some?) && Listing(rest + [a, b], ids)
    requires a in ids && b in ids && AllHexadecimal(Remotes(rest))
    ensures Ids(Remotes(rest + [a, b])) == ids
    ensures var sorted := Sort(Measured(key, Remotes(rest)), Nearer);
            Selected(key, Remotes(rest + [a, b]), |ids|) ==
            IdsOf(Insert(Measure(key, b), Insert(Measure(key, a), sorted, Nearer), Nearer))
  {
    SelectedOfListing(key, rest + [a, b], ids);
    MeasuredOfTwoMore(key, rest, a, b);
    SortOfTwoMore(Measured(key, Remotes(rest)), Measure(key, a), Measure(key, b));
  }

  lemma ListingOfTwoMore(rest: seq<string>, ids: set<string>, a: string, b: string)
    requires a in ids && b in ids && a != b && Listing(rest, ids - {a, b})
    ensures Listing(rest + [a, b], ids)
  {
    var xs := rest + [a, b];
    assert a !in rest && b !in rest;
    forall id ensures id in xs <==> id in ids {
      assert id in xs <==> id in rest || id in [a, b];
    }
  }

  /** Two tied ids can be listed so that their ranking comes out differently. */
  lemma TiesShow(key: string, ids: set<string>, a: string, b: string) returns (cs: seq<Candidate>, ds: seq<Candidate>)
    requires HexValue(key).Some? && forall id :: id in ids ==> HexValue(id).Some?
    requires a in ids && b in ids && a != b && Distance(key, a) == Distance(key, b)
    ensures Ids(cs) == ids && Ids(ds) == ids && Selected(key, cs, |ids|) != Selected(key, ds, |ids|)
  {
    var rest := SomeListing(ids - {a, b});
    assert ids - {b, a} == ids - {a, b};
    ListingOfTwoMore(rest, ids, a, b);
    ListingOfTwoMore(rest, ids, b, a);
    assert forall i :: 0 <= i < |rest| ==> rest[i] in rest;
    SelectedOfTwoMore(key, rest, a, b, ids);
    SelectedOfTwoMore(key, rest, b, a, ids);
    cs, ds := Remotes(rest + [a, b]), Remotes(rest + [b, a]);
    TiedDiffer(Measure(key, a), Measure(key, b), Sort(Measured(key, Remotes(rest)), Nearer));
  }

  lemma AllAreTaken(key: string, xs: seq<string>, ids: set<string>)
    requires Listing(xs, ids) && AllHexadecimal(Remotes(xs)) && HexValue(key).Some?
    ensures var sorted := Sort(Measured(key, Remotes(xs)), Nearer); Take(sorted, |ids|) == sorted
  {
    SameMembers(Measured(key, Remotes(xs)), Sort(Measured(key, Remotes(xs)), Nearer));
    ListingCounts(xs, ids);
  }

  lemma {:induction false} ListingCounts(xs: seq<string>, ids: set<string>)
    requires Listing(xs, ids)
    ensures |xs| == |ids|
  {
    if xs != [] {
      var init, last := xs[..|xs| - 1], xs[|xs| - 1];
      assert xs == init + [last];
      assert last in xs;
      ListingCounts(init, ids - {last});
    } else {
      assert ids == {};
    }
  }

  /** The selection depends on the set of known ids only, for every number of nodes, if and only if no two are tied. */
  lemma OrderIsIgnoredExactlyWhen(key: string, ids: set<string>)
    requires HexValue(key).Some? && forall id :: id in ids ==> HexValue(id).Some?
    ensures NoTies(key, ids) <==>
            forall cs, ds, k :: Ids(cs) == ids && Ids(ds) == ids ==> Selected(key, cs, k) == Selected(key, ds, k)
  {
    if NoTies(key, ids) {
      forall cs, ds, k | Ids(cs) == ids && Ids(ds) == ids ensures Selected(key, cs, k) == Selected(key, ds, k) {
        KnownIsRanked(key, cs);
        KnownIsRanked(key, ds);
        SelectionIgnoresOrder(key, cs, ds, k);
      }
    } else {
      var a, b :| a in ids && b in ids && Distance(key, a).Some? && Distance(key, a) == Distance(key, b) && a != b;
      var cs, ds := TiesShow(key, ids, a, b);
      assert Selected(key, cs, |ids|) != Selected(key, ds, |ids|);
    }
  }

  lemma KnownIsRanked(key: string, cs: seq<Candidate>)
    requires HexValue(key).Some? && forall id :: id in Ids(cs) ==> HexValue(id).Some?
    ensures Ranking(key, cs).Ok?
  {
    var unique := Deduplicated(cs);
    forall i | 0 <= i < |unique| ensures HexValue(unique[i].nodeId).Some? {
      assert FirstIds(cs)[i] in FirstIds(cs);
    }
  }

  // ---------------------------------------------------------------- responsibility

  ghost predicate Responsible(key: string, cs: seq<Candidate>, k: int) {
    Ranking(key, cs).Ok? &&
    exists i :: 0 <= i < |Take(Ranking(key, cs).value, k)| && Take(Ranking(key, cs).value, k)[i].node.isLocal
  }

  /** `home` is the one local id of a candidate list. */
  ghost predicate OnlyLocal(cs: seq<Candidate>, home: string) {
    && home in Ids(cs)
    && (exists i :: 0 <= i < |cs| && cs[i].nodeId == home && cs[i].isLocal)
    && forall i :: 0 <= i < |cs| && cs[i].isLocal ==> cs[i].nodeId == home
  }

  lemma RankedNodesAreChosen(key: string, cs: seq<Candidate>, p: nat)
    requires Ranking(key, cs).Ok? && p < |Ranking(key, cs).value|
    ensures var node := Ranking(key, cs).value[p].node; Chosen(cs, node.nodeId) == Some(node)
  {
    var unique, r := Deduplicated(cs), Ranking(key, cs).value;
    var xs := Measured(key, unique);
    assert r[p] in multiset(r) && r[p] in multiset(xs);
    var i :| 0 <= i < |xs| && xs[i] == r[p];
    assert FirstIds(cs)[i] in FirstIds(cs);
  }

  /** A node thinks itself responsible exactly when every node that knows the same ids selects it. */
  lemma ResponsibilityIsAgreed(key: string, cs: seq<Candidate>, ds: seq<Candidate>, k: int, home: string)
    requires Ranking(key, cs).Ok? && Ranking(key, ds).Ok? && Ids(cs) == Ids(ds) && NoTies(key, Ids(cs))
    requires OnlyLocal(cs, home)
    ensures Responsible(key, cs, k) <==> Has(Take(Ranking(key, ds).value, k), home)
  {
    SelectionIgnoresOrder(key, cs, ds, k);
    var xs, ys := Take(Ranking(key, cs).value, k), Take(Ranking(key, ds).value, k);
    forall i | 0 <= i < |xs| ensures xs[i].node.isLocal <==> xs[i].node.nodeId == home {
      RankedNodesAreChosen(key, cs, i);
    }
    assert |xs| == |IdsOf(xs)| && |ys| == |IdsOf(ys)|;
    assert forall i :: 0 <= i < |xs| ==> IdsOf(xs)[i] == xs[i].node.nodeId && IdsOf(ys)[i] == ys[i].node.nodeId;
  }

  lemma OneMoreIsCloser(key: string, ids: set<string>, added: string, id: string)
    ensures |Closer(key, ids, id)| <= |Closer(key, ids + {added}, id)| <= |Closer(key, ids, id)| + 1
  {
    var before, after := Closer(key, ids, id), Closer(key, ids + {added}, id);
    assert after == before || after == before + {added};
  }

  /** One more candidate lets in nobody else and evicts at most the farthest selected node. */
  lemma OneMoreEvictsTheFarthest(key: string, cs: seq<Candidate>, ds: seq<Candidate>, added: string, k: nat, id: string)
    requires Ranking(key, cs).Ok? && Ranking(key, ds).Ok? && Ids(ds) == Ids(cs) + {added} && NoTies(key, Ids(ds))
    ensures Has(Take(Ranking(key, ds).value, k), id) ==> id == added || Has(Take(Ranking(key, cs).value, k), id)
    ensures Has(Take(Ranking(key, cs).value, k), id) && !Has(Take(Ranking(key, ds).value, k), id) ==>
              && Has(Take(Ranking(key, ds).value, k), added)
              && forall other :: Has(Take(Ranking(key, cs).value, k), other) ==> Far(key, other) <= Far(key, id)
  {
    var ids := Ids(cs);
    SelectionIsExact(key, cs, k, id);
    SelectionIsExact(key, ds, k, id);
    OneMoreIsCloser(key, ids, added, id);
    if Has(Take(Ranking(key, cs).value, k), id) && !Has(Take(Ranking(key, ds).value, k), id) {
      assert |Closer(key, ids, id)| == k - 1;
      forall other | Has(Take(Ranking(key, cs).value, k), other) ensures Far(key, other) <= Far(key, id) {
        SelectionIsExact(key, cs, k, other);
        if Far(key, id) < Far(key, other) {
          CloserIsMonotone(key, ids, id, other);
        }
      }
      assert Far(key, added) < Far(key, id) by {
        assert Closer(key, ids + {added}, id) != Closer(key, ids, id);
      }
      CloserIsMonotone(key, Ids(ds), added, id);
      assert |Closer(key, Ids(ds), added)| < k;
      SelectionIsExact(key, ds, k, added);
    }
  }
}
