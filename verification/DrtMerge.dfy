/**
 * Merging route entries: one per final path id, later expiry first, and what that order buys when the clock advances.
 */
module DrtMerge {
  import opened DhtRecords
  import opened Ordering

  // ---------------------------------------------------------------- the rank of an entry

  datatype Rank = Rank(expires: int, rtt: int, physicalKey: string)

  predicate Timed(e: DrtEntry) {
    e.expires.instant.Some?
  }

  function RankOf(e: DrtEntry): Rank
    requires Timed(e)
  {
    Rank(e.expires.instant.value, e.rtt, e.physicalKey)
  }

  predicate Outranks(a: Rank, b: Rank) {
    || a.expires > b.expires
    || (a.expires == b.expires && (a.rtt < b.rtt || (a.rtt == b.rtt && Less(a.physicalKey, b.physicalKey))))
  }

  lemma OutranksIsStrictTotalOrder(a: Rank, b: Rank, c: Rank)
    ensures Outranks(a, b) || Outranks(b, a) || a == b
    ensures !(Outranks(a, b) && Outranks(b, a))
    ensures Outranks(a, b) && Outranks(b, c) ==> Outranks(a, c)
  {
    LessIsTotal(a.physicalKey, b.physicalKey);
    if Less(a.physicalKey, b.physicalKey) && Less(b.physicalKey, c.physicalKey) {
      LessIsTransitive(a.physicalKey, b.physicalKey, c.physicalKey);
    }
  }

  /** `_is_better_drt_route_entry`, including what it does with timestamps that do not parse. */
  predicate Better(candidate: DrtEntry, current: DrtEntry) {
    var x, y := candidate.expires.instant, current.expires.instant;
    if x.Some? && y.Some? && x.value != y.value then x.value > y.value
    else if candidate.rtt != current.rtt then candidate.rtt < current.rtt
    else Less(candidate.physicalKey, current.physicalKey)
  }

  // ---------------------------------------------------------------- deduplication

  /** `unique[e.final_path_id] = e` if that is an improvement; a dictionary keeps the place of a key it already has. */
  function Upsert(unique: seq<DrtEntry>, e: DrtEntry): seq<DrtEntry> {
    if unique == [] then [e]
    else if unique[0].finalPath == e.finalPath then (if Better(e, unique[0]) then [e] + unique[1..] else unique)
    else [unique[0]] + Upsert(unique[1..], e)
  }

  function Uniques(entries: seq<DrtEntry>): seq<DrtEntry> {
    if entries == [] then []
    else Upsert(Uniques(entries[..|entries| - 1]), entries[|entries| - 1])
  }

  predicate PathBefore(a: DrtEntry, b: DrtEntry) {
    Less(a.finalPath, b.finalPath)
  }

  /** The first component of the sort key decides, since no two of the entries share it. */
  function Deduplicate(entries: seq<DrtEntry>): seq<DrtEntry> {
    Sort(Uniques(entries), PathBefore)
  }

  ghost predicate PathsDiffer(entries: seq<DrtEntry>) {
    forall i, j :: 0 <= i < j < |entries| ==> entries[i].finalPath != entries[j].finalPath
  }

  lemma {:induction false} UpsertOfNewPath(unique: seq<DrtEntry>, e: DrtEntry)
    requires forall i :: 0 <= i < |unique| ==> unique[i].finalPath != e.finalPath
    ensures Upsert(unique, e) == unique + [e]
  {
    if unique != [] {
      UpsertOfNewPath(unique[1..], e);
    }
  }

  lemma UpsertBehind(first: DrtEntry, rest: seq<DrtEntry>, e: DrtEntry)
    requires first.finalPath != e.finalPath
    ensures Upsert([first] + rest, e) == [first] + Upsert(rest, e)
  {
    assert ([first] + rest)[1..] == rest;
  }

  lemma {:induction false} UpsertOfKnownPath(unique: seq<DrtEntry>, i: nat, e: DrtEntry)
    requires PathsDiffer(unique) && i < |unique| && unique[i].finalPath == e.finalPath
    ensures Upsert(unique, e) == if Better(e, unique[i]) then unique[i := e] else unique
  {
    var first, rest := unique[0], unique[1..];
    assert unique == [first] + rest;
    if i > 0 {
      UpsertBehind(first, rest, e);
      UpsertOfKnownPath(rest, i - 1, e);
      assert unique[i := e] == [first] + rest[i - 1 := e];
    }
  }

  lemma {:induction false} UniquesDiffer(entries: seq<DrtEntry>)
    ensures PathsDiffer(Uniques(entries))
  {
    if entries != [] {
      var before, e := Uniques(entries[..|entries| - 1]), entries[|entries| - 1];
      UniquesDiffer(entries[..|entries| - 1]);
      if i :| 0 <= i < |before| && before[i].finalPath == e.finalPath {
        UpsertOfKnownPath(before, i, e);
      } else {
        UpsertOfNewPath(before, e);
      }
    }
  }

  /** A dictionary and the order of its keys stand for a list of entries. */
  ghost predicate StandsFor(order: seq<string>, unique: map<string, DrtEntry>, list: seq<DrtEntry>) {
    && |order| == |list| && PathsDiffer(list)
    && (forall k :: 0 <= k < |list| ==>
          order[k] == list[k].finalPath && order[k] in unique && unique[order[k]] == list[k])
    && (forall p :: p in unique ==> p in order)
  }

  lemma NewPathIsAppended(order: seq<string>, unique: map<string, DrtEntry>, list: seq<DrtEntry>, e: DrtEntry)
    requires StandsFor(order, unique, list) && e.finalPath !in unique
    ensures StandsFor(order + [e.finalPath], unique[e.finalPath := e], Upsert(list, e))
  {
    UpsertOfNewPath(list, e);
  }

  lemma ReplacedStandsFor(order: seq<string>, unique: map<string, DrtEntry>, list: seq<DrtEntry>, k: nat, e: DrtEntry)
    requires StandsFor(order, unique, list) && k < |list| && list[k].finalPath == e.finalPath
    ensures StandsFor(order, unique[e.finalPath := e], list[k := e])
  {
    var more, replaced := unique[e.finalPath := e], list[k := e];
    forall i | 0 <= i < |replaced|
      ensures order[i] == replaced[i].finalPath && order[i] in more && more[order[i]] == replaced[i]
    {
      assert i != k ==> list[i].finalPath != list[k].finalPath;
    }
  }

  lemma KnownPathIsReplaced(order: seq<string>, unique: map<string, DrtEntry>, list: seq<DrtEntry>, e: DrtEntry)
    requires StandsFor(order, unique, list) && e.finalPath in unique
    ensures var after := if Better(e, unique[e.finalPath]) then unique[e.finalPath := e] else unique;
            StandsFor(order, after, Upsert(list, e))
  {
    var k :| 0 <= k < |order| && order[k] == e.finalPath;
    UpsertOfKnownPath(list, k, e);
    assert unique[e.finalPath] == list[k];
    ReplacedStandsFor(order, unique, list, k, e);
  }

  lemma UniquesOfMore(entries: seq<DrtEntry>, i: nat)
    requires i < |entries|
    ensures Uniques(entries[..i + 1]) == Upsert(Uniques(entries[..i]), entries[i])
  {
    assert entries[..i + 1][..i] == entries[..i];
  }

  lemma UniquesSort(entries: seq<DrtEntry>)
    ensures StrictlySortedBy(Deduplicate(entries), PathBefore)
  {
    var values := Uniques(entries);
    UniquesDiffer(entries);
    PathsAreOrdered();
    forall i, j | 0 <= i < j < |values| ensures Comparable(values[i], values[j], PathBefore) {
      LessIsTotal(values[i].finalPath, values[j].finalPath);
    }
    SortOfUntied(values, PathBefore);
  }

  lemma PathsAreOrdered()
    ensures IsOrder(PathBefore)
  {
    StringsAreOrdered();
  }

  /** The loop over a dictionary, then the sort. */
  method DeduplicateRouteEntries(entries: seq<DrtEntry>) returns (result: seq<DrtEntry>)
    ensures result == Deduplicate(entries)
    ensures StrictlySortedBy(result, PathBefore)
  {
    var unique: map<string, DrtEntry> := map[];
    var order: seq<string> := [];
    for i := 0 to |entries|
      invariant StandsFor(order, unique, Uniques(entries[..i]))
    {
      var e := entries[i];
      UniquesOfMore(entries, i);
      if e.finalPath !in unique {
        NewPathIsAppended(order, unique, Uniques(entries[..i]), e);
        order := order + [e.finalPath];
        unique := unique[e.finalPath := e];
      } else {
        KnownPathIsReplaced(order, unique, Uniques(entries[..i]), e);
        if Better(e, unique[e.finalPath]) {
          unique := unique[e.finalPath := e];
        }
      }
    }
    var values := seq(|order|, k requires 0 <= k < |order| && order[k] in unique => unique[order[k]]);
    assert entries[..|entries|] == entries && values == Uniques(entries);
    UniquesSort(entries);
    result := Sort(values, PathBefore);
  }

  // ---------------------------------------------------------------- the best entry of a path

  ghost predicate AllTimed(entries: seq<DrtEntry>) {
    forall e :: e in entries ==> Timed(e)
  }

  /** Rank r is reached by an entry for path p and no entry for p outranks it. */
  ghost predicate IsBest(entries: seq<DrtEntry>, p: string, r: Rank) {
    && (exists e :: e in entries && Timed(e) && e.finalPath == p && RankOf(e) == r)
    && forall e :: e in entries && Timed(e) && e.finalPath == p ==> !Outranks(RankOf(e), r)
  }

  ghost predicate SameBest(one: seq<DrtEntry>, other: seq<DrtEntry>) {
    forall p, r :: IsBest(one, p, r) <==> IsBest(other, p, r)
  }

  ghost predicate SameEntries(one: seq<DrtEntry>, other: seq<DrtEntry>) {
    forall e :: e in one <==> e in other
  }

  lemma SameEntriesSameBest(one: seq<DrtEntry>, other: seq<DrtEntry>)
    requires SameEntries(one, other)
    ensures SameBest(one, other)
  {
  }

  lemma {:induction false} SomeBest(entries: seq<DrtEntry>, x: DrtEntry) returns (r: Rank)
    requires x in entries && Timed(x)
    ensures IsBest(entries, x.finalPath, r) && !Outranks(RankOf(x), r)
  {
    var last, init := entries[|entries| - 1], entries[..|entries| - 1];
    assert entries == init + [last];
    if !(Timed(last) && last.finalPath == x.finalPath) {
      r := SomeBest(init, x);
    } else if forall e :: e in init ==> !(Timed(e) && e.finalPath == x.finalPath) {
      r := RankOf(last);
      OutranksIsStrictTotalOrder(r, r, r);
    } else {
      var y := if x in init then x else var e :| e in init && Timed(e) && e.finalPath == x.finalPath; e;
      var s := SomeBest(init, y);
      OutranksIsStrictTotalOrder(s, RankOf(last), s);
      if Outranks(RankOf(last), s) {
        r := RankOf(last);
        forall e | e in entries && Timed(e) && e.finalPath == x.finalPath ensures !Outranks(RankOf(e), r) {
          OutranksIsStrictTotalOrder(RankOf(e), r, s);
        }
      } else {
        r := s;
      }
    }
  }

  lemma BestIsUnique(entries: seq<DrtEntry>, p: string, r: Rank, s: Rank)
    requires IsBest(entries, p, r) && IsBest(entries, p, s)
    ensures r == s
  {
    OutranksIsStrictTotalOrder(r, s, r);
  }

  lemma BetterIsOutranking(e: DrtEntry, k: DrtEntry)
    requires Timed(e) && Timed(k)
    ensures Better(e, k) <==> Outranks(RankOf(e), RankOf(k))
  {
  }

  /** An entry of `kept` for the same path that is at least as good. */
  ghost predicate Covered(e: DrtEntry, kept: seq<DrtEntry>) {
    exists k :: k in kept && k.finalPath == e.finalPath && !Better(e, k)
  }

  /** Nothing new, and everything left out is at least equalled by something kept. */
  ghost predicate Covers(kept: seq<DrtEntry>, all: seq<DrtEntry>) {
    && (forall e :: e in kept ==> e in all)
    && forall e {:trigger Covered(e, kept)} :: e in all ==> Covered(e, kept)
  }

  lemma TiesAreEqual(e: DrtEntry, k: DrtEntry)
    requires Timed(e) && Timed(k) && !Better(e, k) && !Outranks(RankOf(k), RankOf(e))
    ensures RankOf(e) == RankOf(k)
  {
    BetterIsOutranking(e, k);
    OutranksIsStrictTotalOrder(RankOf(e), RankOf(k), RankOf(e));
  }

  lemma BestIsKept(all: seq<DrtEntry>, kept: seq<DrtEntry>, p: string, r: Rank)
    requires AllTimed(all) && Covers(kept, all)
    requires IsBest(all, p, r)
    ensures IsBest(kept, p, r)
  {
    var e :| e in all && Timed(e) && e.finalPath == p && RankOf(e) == r;
    assert Covered(e, kept);
    var k :| k in kept && k.finalPath == e.finalPath && !Better(e, k);
    TiesAreEqual(e, k);
  }

  lemma KeptIsBest(all: seq<DrtEntry>, kept: seq<DrtEntry>, p: string, r: Rank)
    requires AllTimed(all) && Covers(kept, all)
    requires IsBest(kept, p, r)
    ensures IsBest(all, p, r)
  {
    forall e | e in all && e.finalPath == p ensures !Outranks(RankOf(e), r) {
      assert Covered(e, kept);
      var k :| k in kept && k.finalPath == e.finalPath && !Better(e, k);
      BetterIsOutranking(e, k);
      OutranksIsStrictTotalOrder(RankOf(k), RankOf(e), r);
    }
  }

  /** Leaving out entries that another entry for the same path at least equals does not change the best ranks. */
  lemma LosersDoNotMatter(all: seq<DrtEntry>, kept: seq<DrtEntry>)
    requires AllTimed(all) && Covers(kept, all)
    ensures SameBest(all, kept)
  {
    forall p, r ensures IsBest(all, p, r) <==> IsBest(kept, p, r) {
      if IsBest(all, p, r) {
        BestIsKept(all, kept, p, r);
      }
      if IsBest(kept, p, r) {
        KeptIsBest(all, kept, p, r);
      }
    }
  }

  lemma CoverageIsTransitive(e: DrtEntry, kept: seq<DrtEntry>, after: seq<DrtEntry>)
    requires Timed(e) && AllTimed(kept) && AllTimed(after)
    requires Covered(e, kept) && forall k :: k in kept ==> Covered(k, after)
    ensures Covered(e, after)
  {
    var k :| k in kept && k.finalPath == e.finalPath && !Better(e, k);
    assert Covered(k, after);
    var m :| m in after && m.finalPath == k.finalPath && !Better(k, m);
    BetterIsOutranking(e, k);
    BetterIsOutranking(k, m);
    BetterIsOutranking(e, m);
    OutranksIsStrictTotalOrder(RankOf(e), RankOf(k), RankOf(m));
    OutranksIsStrictTotalOrder(RankOf(m), RankOf(k), RankOf(e));
    OutranksIsStrictTotalOrder(RankOf(e), RankOf(m), RankOf(k));
  }

  lemma CoversItself(e: DrtEntry, kept: seq<DrtEntry>)
    requires Timed(e) && e in kept
    ensures Covered(e, kept)
  {
    BetterIsOutranking(e, e);
    OutranksIsStrictTotalOrder(RankOf(e), RankOf(e), RankOf(e));
  }

  lemma UpsertDominates(unique: seq<DrtEntry>, e: DrtEntry)
    requires PathsDiffer(unique) && AllTimed(unique) && Timed(e)
    ensures forall k :: k in Upsert(unique, e) ==> k in unique || k == e
    ensures forall x :: x in unique || x == e ==> Covered(x, Upsert(unique, e))
  {
    var after := Upsert(unique, e);
    if i :| 0 <= i < |unique| && unique[i].finalPath == e.finalPath {
      UpsertOfKnownPath(unique, i, e);
      BetterIsOutranking(e, unique[i]);
      BetterIsOutranking(unique[i], e);
      OutranksIsStrictTotalOrder(RankOf(e), RankOf(unique[i]), RankOf(e));
      assert after[i] in after;
      assert Covered(e, after) by {
        CoversItself(after[i], after);
      }
      forall x | x in unique ensures Covered(x, after) {
        var j :| 0 <= j < |unique| && unique[j] == x;
        assert j != i ==> after[j] == x && x in after;
        if x in after {
          CoversItself(x, after);
        }
      }
    } else {
      UpsertOfNewPath(unique, e);
      forall x | x in unique || x == e ensures Covered(x, after) {
        assert x in after;
        CoversItself(x, after);
      }
    }
  }

  lemma {:induction false} UniquesDominate(entries: seq<DrtEntry>)
    requires AllTimed(entries)
    ensures forall e :: e in Uniques(entries) ==> e in entries
    ensures forall e :: e in entries ==> Covered(e, Uniques(entries))
  {
    if entries != [] {
      var init, last := entries[..|entries| - 1], entries[|entries| - 1];
      assert entries == init + [last];
      UniquesDominate(init);
      UniquesDiffer(init);
      UpsertDominates(Uniques(init), last);
      forall e | e in init ensures Covered(e, Uniques(entries)) {
        CoverageIsTransitive(e, Uniques(init), Uniques(entries));
      }
    }
  }

  /**
   * The output of deduplication: strictly increasing path ids, entries of the input only, and the best rank of each
   * path.
   */
  lemma DeduplicateKeepsBest(entries: seq<DrtEntry>)
    requires AllTimed(entries)
    ensures StrictlySortedBy(Deduplicate(entries), PathBefore)
    ensures forall e :: e in Deduplicate(entries) ==> e in entries
    ensures SameBest(Deduplicate(entries), entries)
  {
    var unique := Uniques(entries);
    UniquesDominate(entries);
    LosersDoNotMatter(entries, unique);
    SameMembers(unique, Deduplicate(entries));
    SameEntriesSameBest(unique, Deduplicate(entries));
    UniquesSort(entries);
  }

  lemma CoverageMoves(kept: seq<DrtEntry>, same: seq<DrtEntry>, all: seq<DrtEntry>)
    requires Covers(kept, all) && SameEntries(kept, same)
    ensures Covers(same, all)
  {
    forall e | e in all ensures Covered(e, same) {
      assert Covered(e, kept);
      var k :| k in kept && k.finalPath == e.finalPath && !Better(e, k);
      assert k in same;
    }
  }

  ghost predicate OnePerPath(entries: seq<DrtEntry>) {
    forall e, k :: e in entries && k in entries && e.finalPath == k.finalPath ==> e == k
  }

  lemma DifferentIsOnePerPath(entries: seq<DrtEntry>)
    requires PathsDiffer(entries)
    ensures OnePerPath(entries)
  {
  }

  /** Entry by entry: what is left comes from the input, one for each path, and nothing of the input surpasses it. */
  lemma DeduplicateCovers(entries: seq<DrtEntry>)
    requires AllTimed(entries)
    ensures Covers(Deduplicate(entries), entries) && OnePerPath(Deduplicate(entries))
  {
    UniquesDominate(entries);
    UniquesDiffer(entries);
    DifferentIsOnePerPath(Uniques(entries));
    SameMembers(Uniques(entries), Deduplicate(entries));
    CoverageMoves(Uniques(entries), Deduplicate(entries), entries);
  }

  lemma BestOfBoth(one: seq<DrtEntry>, one': seq<DrtEntry>, other: seq<DrtEntry>, p: string, r: Rank)
    requires SameBest(one, one') && IsBest(one + other, p, r)
    ensures IsBest(one' + other, p, r)
  {
    var e :| e in one + other && Timed(e) && e.finalPath == p && RankOf(e) == r;
    forall x | x in one' && Timed(x) && x.finalPath == p ensures !Outranks(RankOf(x), r) {
      var s := SomeBest(one', x);
      assert IsBest(one, p, s);
      OutranksIsStrictTotalOrder(RankOf(x), s, r);
      OutranksIsStrictTotalOrder(s, RankOf(x), r);
    }
    if e in one {
      assert IsBest(one, p, r) && IsBest(one', p, r);
    }
  }

  lemma SameBestOfBoth(one: seq<DrtEntry>, one': seq<DrtEntry>, other: seq<DrtEntry>, other': seq<DrtEntry>)
    requires SameBest(one, one') && SameBest(other, other')
    ensures SameBest(one + other, one' + other')
  {
    forall p, r ensures IsBest(one + other, p, r) <==> IsBest(one' + other', p, r) {
      SameEntriesSameBest(one' + other, other + one');
      SameEntriesSameBest(one' + other', other' + one');
      if IsBest(one + other, p, r) {
        BestOfBoth(one, one', other, p, r);
        BestOfBoth(other, other', one', p, r);
      }
      if IsBest(one' + other', p, r) {
        BestOfBoth(other', other, one', p, r);
        BestOfBoth(one', one, other, p, r);
      }
    }
  }

  // ---------------------------------------------------------------- validity at a clock reading

  /** Where a record is kept and how its entries are checked. */
  datatype Site = Site(oracle: Oracle, key: string, virtualKey: string)

  predicate Valid(at: Site, now: int, e: DrtEntry) {
    DrtEntryIsValid(at.oracle, at.key, at.virtualKey, now, e)
  }

  predicate Genuine(at: Site, e: DrtEntry) {
    DrtEntryIsGenuine(at.oracle, at.key, at.virtualKey, e)
  }

  function Live(at: Site, now: int, entries: seq<DrtEntry>): (r: seq<DrtEntry>)
    ensures forall e :: e in r <==> e in entries && Valid(at, now, e)
  {
    if entries == [] then []
    else
      var init := Live(at, now, entries[..|entries| - 1]);
      var last := entries[|entries| - 1];
      assert entries == entries[..|entries| - 1] + [last];
      if Valid(at, now, last) then init + [last] else init
  }

  function MergeRoutes(at: Site, now: int, parent: seq<DrtEntry>, fragment: seq<DrtEntry>): seq<DrtEntry> {
    Deduplicate(Live(at, now, parent) + Live(at, now, fragment))
  }

  /** A fragment with entries of which none is valid is refused. */
  predicate Refused(at: Site, now: int, fragment: seq<DrtEntry>) {
    fragment != [] && Live(at, now, fragment) == []
  }

  /** Because expiry is compared first, the entries still live later include every best entry that is still live. */
  lemma BestOfLive(at: Site, later: int, entries: seq<DrtEntry>, p: string, r: Rank)
    requires AllTimed(entries) && forall e :: e in entries ==> Genuine(at, e)
    ensures IsBest(Live(at, later, entries), p, r) <==> IsBest(entries, p, r) && r.expires > later
  {
    var live := Live(at, later, entries);
    if IsBest(live, p, r) {
      forall e | e in entries && e.finalPath == p ensures !Outranks(RankOf(e), r) {
        assert Outranks(RankOf(e), r) ==> e in live;
      }
    }
    if IsBest(entries, p, r) && r.expires > later {
      var e :| e in entries && Timed(e) && e.finalPath == p && RankOf(e) == r;
      assert e in live;
    }
  }

  lemma LiveIsTimed(at: Site, now: int, entries: seq<DrtEntry>)
    ensures AllTimed(Live(at, now, entries)) && forall e :: e in Live(at, now, entries) ==> Genuine(at, e)
  {
  }

  lemma SameBestLater(at: Site, later: int, one: seq<DrtEntry>, other: seq<DrtEntry>)
    requires AllTimed(one) && AllTimed(other)
    requires forall e :: e in one || e in other ==> Genuine(at, e)
    requires SameBest(one, other)
    ensures SameBest(Live(at, later, one), Live(at, later, other))
  {
    forall p, r ensures IsBest(Live(at, later, one), p, r) <==> IsBest(Live(at, later, other), p, r) {
      BestOfLive(at, later, one, p, r);
      BestOfLive(at, later, other, p, r);
    }
  }

  /** One merge at `now`, looked at `later`: the same best ranks as both lists unmerged. */
  lemma MergeThenWait(at: Site, now: int, later: int, parent: seq<DrtEntry>, fragment: seq<DrtEntry>)
    requires now <= later
    ensures SameBest(Live(at, later, MergeRoutes(at, now, parent, fragment)),
                     Live(at, later, parent) + Live(at, later, fragment))
  {
    var both := Live(at, now, parent) + Live(at, now, fragment);
    LiveIsTimed(at, now, parent);
    LiveIsTimed(at, now, fragment);
    DeduplicateKeepsBest(both);
    SameBestLater(at, later, Deduplicate(both), both);
    SameEntriesSameBest(Live(at, later, both), Live(at, later, parent) + Live(at, later, fragment));
  }

  // ---------------------------------------------------------------- a stream of fragments

  datatype Arrival = Arrival(now: int, entries: seq<DrtEntry>)

  function Folded(at: Site, parent: seq<DrtEntry>, arrivals: seq<Arrival>): seq<DrtEntry> {
    if arrivals == [] then parent
    else
      var before := Folded(at, parent, arrivals[..|arrivals| - 1]);
      var a := arrivals[|arrivals| - 1];
      if Refused(at, a.now, a.entries) then before else MergeRoutes(at, a.now, before, a.entries)
  }

  function AllEntries(arrivals: seq<Arrival>): seq<DrtEntry> {
    if arrivals == [] then [] else AllEntries(arrivals[..|arrivals| - 1]) + arrivals[|arrivals| - 1].entries
  }

  lemma RefusedStaysInvalid(at: Site, now: int, later: int, fragment: seq<DrtEntry>)
    requires now <= later && Refused(at, now, fragment)
    ensures Live(at, later, fragment) == []
  {
    forall e | e in fragment ensures !Valid(at, later, e) {
      assert e !in Live(at, now, fragment);
    }
    NoneIsLive(at, later, fragment);
  }

  lemma {:induction false} NoneIsLive(at: Site, now: int, entries: seq<DrtEntry>)
    requires forall e :: e in entries ==> !Valid(at, now, e)
    ensures Live(at, now, entries) == []
  {
    if entries != [] {
      NoneIsLive(at, now, entries[..|entries| - 1]);
    }
  }

  lemma {:induction false} FoldedIsBestOfAll(at: Site, parent: seq<DrtEntry>, arrivals: seq<Arrival>, later: int)
    requires forall a :: a in arrivals ==> a.now <= later
    ensures SameBest(Live(at, later, Folded(at, parent, arrivals)), Live(at, later, parent + AllEntries(arrivals)))
  {
    if arrivals == [] {
      assert parent + AllEntries(arrivals) == parent;
    } else {
      var init, a := arrivals[..|arrivals| - 1], arrivals[|arrivals| - 1];
      var before := Folded(at, parent, init);
      FoldedIsBestOfAll(at, parent, init, later);
      var sofar := Live(at, later, parent + AllEntries(init));
      SameBestOfBoth(Live(at, later, before), sofar, Live(at, later, a.entries), Live(at, later, a.entries));
      SameEntriesSameBest(sofar + Live(at, later, a.entries), Live(at, later, parent + AllEntries(arrivals)));
      if Refused(at, a.now, a.entries) {
        RefusedStaysInvalid(at, a.now, later, a.entries);
        assert Live(at, later, before) + [] == Live(at, later, before);
      } else {
        MergeThenWait(at, a.now, later, before, a.entries);
      }
    }
  }

  /**
   * Fragments merged one at a time, at clock readings in any order but none after `later`, with losers discarded and
   * refused fragments dropped on the way, and then read at `later`: per final path id the same best rank
   * (expiry, round trip, key) as one merge of everything at `later`.
   */
  lemma MergingEarlyIsHarmless(at: Site, parent: seq<DrtEntry>, arrivals: seq<Arrival>, later: int)
    requires forall a :: a in arrivals ==> a.now <= later
    ensures SameBest(Live(at, later, Folded(at, parent, arrivals)),
        MergeRoutes(at, later, parent, AllEntries(arrivals)))
  {
    FoldedIsBestOfAll(at, parent, arrivals, later);
    var both := Live(at, later, parent) + Live(at, later, AllEntries(arrivals));
    LiveIsTimed(at, later, parent);
    LiveIsTimed(at, later, AllEntries(arrivals));
    DeduplicateKeepsBest(both);
    SameEntriesSameBest(both, Live(at, later, parent + AllEntries(arrivals)));
  }

  // ---------------------------------------------------------------- merge laws at a fixed clock

  lemma MergeIsBestOfBoth(at: Site, now: int, a: seq<DrtEntry>, b: seq<DrtEntry>)
    ensures SameBest(MergeRoutes(at, now, a, b), Live(at, now, a) + Live(at, now, b))
    ensures SameEntries(Live(at, now, MergeRoutes(at, now, a, b)), MergeRoutes(at, now, a, b))
    ensures StrictlySortedBy(MergeRoutes(at, now, a, b), PathBefore)
  {
    LiveIsTimed(at, now, a);
    LiveIsTimed(at, now, b);
    DeduplicateKeepsBest(Live(at, now, a) + Live(at, now, b));
  }

  lemma MergeCommutes(at: Site, now: int, a: seq<DrtEntry>, b: seq<DrtEntry>)
    ensures SameBest(MergeRoutes(at, now, a, b), MergeRoutes(at, now, b, a))
  {
    MergeIsBestOfBoth(at, now, a, b);
    MergeIsBestOfBoth(at, now, b, a);
    SameEntriesSameBest(Live(at, now, a) + Live(at, now, b), Live(at, now, b) + Live(at, now, a));
  }

  lemma MergeOfMerged(at: Site, now: int, a: seq<DrtEntry>, b: seq<DrtEntry>, c: seq<DrtEntry>)
    ensures SameBest(MergeRoutes(at, now, MergeRoutes(at, now, a, b), c),
                     Live(at, now, a) + Live(at, now, b) + Live(at, now, c))
  {
    var ab := MergeRoutes(at, now, a, b);
    MergeIsBestOfBoth(at, now, a, b);
    MergeIsBestOfBoth(at, now, ab, c);
    SameEntriesSameBest(Live(at, now, ab), ab);
    SameBestOfBoth(Live(at, now, ab), Live(at, now, a) + Live(at, now, b), Live(at, now, c), Live(at, now, c));
  }

  lemma MergeAssociates(at: Site, now: int, a: seq<DrtEntry>, b: seq<DrtEntry>, c: seq<DrtEntry>)
    ensures SameBest(MergeRoutes(at, now, MergeRoutes(at, now, a, b), c),
        MergeRoutes(at, now, a, MergeRoutes(at, now, b, c)))
  {
    MergeOfMerged(at, now, a, b, c);
    MergeOfMerged(at, now, b, c, a);
    MergeCommutes(at, now, a, MergeRoutes(at, now, b, c));
    SameEntriesSameBest(Live(at, now, a) + Live(at, now, b) + Live(at, now, c),
                        Live(at, now, b) + Live(at, now, c) + Live(at, now, a));
  }

  lemma MergeIsIdempotent(at: Site, now: int, a: seq<DrtEntry>, b: seq<DrtEntry>)
    ensures SameBest(MergeRoutes(at, now, MergeRoutes(at, now, a, b), b), MergeRoutes(at, now, a, b))
  {
    MergeOfMerged(at, now, a, b, b);
    MergeIsBestOfBoth(at, now, a, b);
    SameEntriesSameBest(Live(at, now, a) + Live(at, now, b) + Live(at, now, b), Live(at, now, a) + Live(at, now, b));
  }
}
