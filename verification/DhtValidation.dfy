/** The maintenance loop that turns pending DHT fragments into one validated record per key. */
module DhtValidation {
  import opened DhtRecords
  import opened DhtMerge
  import opened DhtSignatures
  import opened DhtUnion
  import opened DrtMerge
  import opened Ordering
  import opened Wrappers

  /**
   * A stored row. `space` is what its namespace column names, `payload` what its text parses to, if it parses; the
   * position in the table is the id order.
   */
  datatype Record = Record(space: Namespace, key: string, payload: Option<Payload>, source: string, createdAt: int,
                           validatedAt: Option<int>, expiresAt: Option<int>)

  const UNCOMPUTED := -1

  /** `_build_seed_parent_payload`: what a first fragment is merged into. */
  function Seed(space: Namespace, p: Payload): Result<Payload, MergeError> {
    match space
    case DpntTable => if p.Dpnt? then Ok(Dpnt(p.physicalKey, "", "", UNCOMPUTED)) else Err(WrongPayload)
    case DrtTable => if p.Drt? then Ok(Drt(p.virtualKey, [], 0)) else Err(WrongPayload)
    case DdtTable => if p.Ddt? then Ok(Ddt(p.title, p.kind, p.tags, [])) else Err(WrongPayload)
    case DttTable => if p.Dtt? then Ok(Dtt([])) else Err(WrongPayload)
    case DptTable =>
      if p.Dpt? then Ok(Dpt(p.owner, p.name, p.content, Timestamp("", None), "", "", UNCOMPUTED)) else Err(WrongPayload)
    case OtherTable => Err(UnknownNamespace)
  }

  function PreferredExpiry(current: Option<int>, fragment: Option<int>): Option<int> {
    if current.None? then fragment
    else if fragment.None? then current
    else if fragment.value > current.value then fragment
    else current
  }

  predicate Pending(r: Record) {
    r.validatedAt.None?
  }

  /** The pending row with the smallest creation time, the first of them in the table. */
  function Oldest(rows: seq<Record>): (r: Option<nat>)
    ensures r.Some? ==> r.value < |rows| && Pending(rows[r.value])
    ensures r.Some? ==> forall i :: 0 <= i < |rows| && Pending(rows[i]) ==>
              || rows[r.value].createdAt < rows[i].createdAt
              || (rows[r.value].createdAt == rows[i].createdAt && r.value <= i)
    ensures r.None? ==> forall i :: 0 <= i < |rows| ==> !Pending(rows[i])
  {
    if rows == [] then None
    else
      var n := |rows| - 1;
      var before := Oldest(rows[..n]);
      if Pending(rows[n]) && (before.None? || rows[n].createdAt < rows[before.value].createdAt) then Some(n) else before
  }

  /** The validated row for a key with the latest validation, the last of them in the table. */
  function Parent(rows: seq<Record>, key: string): (r: Option<nat>)
    ensures r.Some? ==> r.value < |rows| && !Pending(rows[r.value]) && rows[r.value].key == key
    ensures r.None? ==> forall i :: 0 <= i < |rows| && rows[i].key == key ==> Pending(rows[i])
    ensures r.Some? ==> forall i :: 0 <= i < |rows| && !Pending(rows[i]) && rows[i].key == key ==>
              || rows[i].validatedAt.value < rows[r.value].validatedAt.value
              || (rows[i].validatedAt.value == rows[r.value].validatedAt.value && i <= r.value)
  {
    if rows == [] then None
    else
      var n := |rows| - 1;
      var before := Parent(rows[..n], key);
      if !Pending(rows[n]) && rows[n].key == key
         && (before.None? || rows[n].validatedAt.value >= rows[before.value].validatedAt.value)
      then Some(n) else before
  }

  /** The payload a fragment is merged into. */
  function ParentPayload(rows: seq<Record>, f: Record): Result<Payload, MergeError> {
    var at := Parent(rows, f.key);
    if f.payload.None? then Err(WrongPayload)
    else if at.None? then Seed(f.space, f.payload.value)
    else if rows[at.value].payload.None? then Err(WrongPayload)
    else Ok(rows[at.value].payload.value)
  }

  function Merged(o: Oracle, now: int, rows: seq<Record>, f: Record): Result<Payload, MergeError> {
    var parent := ParentPayload(rows, f);
    if parent.Err? then Err(parent.error)
    else if f.payload.None? then Err(WrongPayload)
    else MergeIn(o, f.space, f.key, now, parent.value, f.payload.value)
  }

  function Without(rows: seq<Record>, i: nat): seq<Record>
    requires i < |rows|
  {
    rows[..i] + rows[i + 1..]
  }

  /** The table with the merge of fragment f written to it; f itself is still there. */
  function Written(rows: seq<Record>, f: Record, now: int, merged: Payload): seq<Record> {
    var at := Parent(rows, f.key);
    if at.None? then
      rows + [Record(f.space, f.key, Some(merged), f.source, now, Some(now), PreferredExpiry(None, f.expiresAt))]
    else
      rows[at.value := rows[at.value].(payload := Some(merged), source := f.source, validatedAt := Some(now),
                                       expiresAt := PreferredExpiry(rows[at.value].expiresAt, f.expiresAt))]
  }

  /** One round of `_validate_local_records`. */
  function Round(o: Oracle, now: int, rows: seq<Record>): seq<Record> {
    match Oldest(rows)
    case None => rows
    case Some(i) =>
      match Merged(o, now, rows, rows[i])
      case Err(_) => Without(rows, i)
      case Ok(m) => Without(Written(rows, rows[i], now, m), i)
  }

  // ---------------------------------------------------------------- histories

  datatype Accepted = Accepted(now: int, space: Namespace, payload: Payload, expiresAt: Option<int>)

  /** What the validated row of a key was made from: a first payload and the fragments accepted since. */
  datatype History = History(start: Payload, startExpiry: Option<int>, accepted: seq<Accepted>)

  /** The merge of one accepted fragment into a payload, as a value, so that folds need not look inside. */
  type Merger = (Accepted, Payload) -> Result<Payload, MergeError>

  function MergerOf(o: Oracle, key: string): Merger {
    (a: Accepted, p: Payload) => MergeIn(o, a.space, key, a.now, p, a.payload)
  }

  function Fold(merge: Merger, start: Payload, accepted: seq<Accepted>): Result<Payload, MergeError> {
    if accepted == [] then Ok(start)
    else
      var before := Fold(merge, start, accepted[..|accepted| - 1]);
      if before.Err? then before else merge(accepted[|accepted| - 1], before.value)
  }

  function FoldPayload(o: Oracle, key: string, h: History): Result<Payload, MergeError> {
    Fold(MergerOf(o, key), h.start, h.accepted)
  }

  function FoldExpiry(h: History): Option<int>
    decreases |h.accepted|
  {
    if h.accepted == [] then h.startExpiry
    else
      var n := |h.accepted| - 1;
      PreferredExpiry(FoldExpiry(h.(accepted := h.accepted[..n])), h.accepted[n].expiresAt)
  }

  ghost predicate OnePerKey(rows: seq<Record>) {
    forall i, j :: 0 <= i < j < |rows| && !Pending(rows[i]) && !Pending(rows[j]) ==> rows[i].key != rows[j].key
  }

  ghost predicate Explained(o: Oracle, r: Record, histories: map<string, History>) {
    && r.key in histories
    && r.payload.Some?
    && FoldPayload(o, r.key, histories[r.key]) == Ok(r.payload.value)
    && FoldExpiry(histories[r.key]) == r.expiresAt
  }

  ghost predicate Invariant(o: Oracle, rows: seq<Record>, histories: map<string, History>) {
    && OnePerKey(rows)
    && (forall i :: 0 <= i < |rows| && !Pending(rows[i]) ==> Explained(o, rows[i], histories))
    && (forall k :: k in histories ==> exists i :: 0 <= i < |rows| && !Pending(rows[i]) && rows[i].key == k)
  }

  function Grown(h: History, a: Accepted): History {
    h.(accepted := h.accepted + [a])
  }

  ghost function Histories(o: Oracle, now: int, rows: seq<Record>, histories: map<string, History>)
    : map<string, History>
  {
    var i := Oldest(rows);
    if i.None? || Merged(o, now, rows, rows[i.value]).Err? then histories
    else
      WithFragment(now, rows, rows[i.value], histories)
  }

  lemma FoldOfMore(merge: Merger, start: Payload, accepted: seq<Accepted>, a: Accepted)
    ensures var before := Fold(merge, start, accepted);
            Fold(merge, start, accepted + [a]) == if before.Err? then before else merge(a, before.value)
  {
    assert (accepted + [a])[..|accepted|] == accepted;
  }

  lemma FoldOfGrown(o: Oracle, key: string, h: History, a: Accepted)
    requires FoldPayload(o, key, h).Ok?
    ensures FoldPayload(o, key, Grown(h, a)) == MergeIn(o, a.space, key, a.now, FoldPayload(o, key, h).value, a.payload)
    ensures FoldExpiry(Grown(h, a)) == PreferredExpiry(FoldExpiry(h), a.expiresAt)
  {
    FoldOfMore(MergerOf(o, key), h.start, h.accepted, a);
    assert Grown(h, a).(accepted := Grown(h, a).accepted[..|h.accepted|]) == h;
  }

  lemma WithoutAt(rows: seq<Record>, i: nat, k: nat)
    requires i < |rows| && k < |Without(rows, i)|
    ensures Without(rows, i)[k] == rows[if k < i then k else k + 1]
  {
  }

  lemma WithoutPending(o: Oracle, rows: seq<Record>, i: nat, histories: map<string, History>)
    requires i < |rows| && Pending(rows[i]) && Invariant(o, rows, histories)
    ensures Invariant(o, Without(rows, i), histories)
  {
    var rest := Without(rows, i);
    forall j, k | 0 <= j < k < |rest| && !Pending(rest[j]) && !Pending(rest[k]) ensures rest[j].key != rest[k].key {
      WithoutAt(rows, i, j);
      WithoutAt(rows, i, k);
    }
    forall k | 0 <= k < |rest| && !Pending(rest[k]) ensures Explained(o, rest[k], histories) {
      WithoutAt(rows, i, k);
    }
    forall x | x in histories ensures exists j :: 0 <= j < |rest| && !Pending(rest[j]) && rest[j].key == x {
      var k :| 0 <= k < |rows| && !Pending(rows[k]) && rows[k].key == x;
      WithoutAt(rows, i, if k < i then k else k - 1);
    }
  }

  function ChangedRow(rows: seq<Record>, key: string): nat {
    var at := Parent(rows, key);
    if at.None? then |rows| else at.value
  }

  lemma WrittenElsewhere(rows: seq<Record>, f: Record, now: int, merged: Payload)
    ensures var w, c := Written(rows, f, now, merged), ChangedRow(rows, f.key);
            && c < |w| && |rows| <= |w|
            && w[c].key == f.key && !Pending(w[c]) && w[c].payload == Some(merged)
            && w[c].expiresAt == PreferredExpiry(if c < |rows| then rows[c].expiresAt else None, f.expiresAt)
            && (forall k :: 0 <= k < |w| && k != c ==> k < |rows| && w[k] == rows[k])
  {
  }

  /** The history a new fragment for f's key is added to, and the payload it stands for. */
  ghost function Before(rows: seq<Record>, f: Record, histories: map<string, History>): History {
    if f.key in histories then histories[f.key]
    else History(if ParentPayload(rows, f).Ok? then ParentPayload(rows, f).value else Dtt([]), None, [])
  }

  lemma BeforeIsParent(o: Oracle, rows: seq<Record>, f: Record, histories: map<string, History>)
    requires Invariant(o, rows, histories) && ParentPayload(rows, f).Ok?
    ensures FoldPayload(o, f.key, Before(rows, f, histories)) == ParentPayload(rows, f)
    ensures FoldExpiry(Before(rows, f, histories)) ==
            if ChangedRow(rows, f.key) < |rows| then rows[ChangedRow(rows, f.key)].expiresAt else None
  {
    var at := Parent(rows, f.key);
    if at.Some? {
      assert Explained(o, rows[at.value], histories);
    } else {
      assert f.key !in histories;
    }
  }

  lemma ChangedIsExplained(o: Oracle, now: int, rows: seq<Record>, f: Record, histories: map<string, History>)
    requires Invariant(o, rows, histories) && Merged(o, now, rows, f).Ok?
    ensures var w := Written(rows, f, now, Merged(o, now, rows, f).value);
            var a := Accepted(now, f.space, f.payload.value, f.expiresAt);
            && ChangedRow(rows, f.key) < |w|
            && Explained(o, w[ChangedRow(rows, f.key)], histories[f.key := Grown(Before(rows, f, histories), a)])
  {
    var m := Merged(o, now, rows, f).value;
    var a := Accepted(now, f.space, f.payload.value, f.expiresAt);
    WrittenElsewhere(rows, f, now, m);
    BeforeIsParent(o, rows, f, histories);
    FoldOfGrown(o, f.key, Before(rows, f, histories), a);
  }

  lemma ReplacedKeepsInvariant(o: Oracle, rows: seq<Record>, w: seq<Record>, c: nat, key: string,
                               histories: map<string, History>, h: History)
    requires Invariant(o, rows, histories) && |rows| <= |w| && c < |w| && w[c].key == key && !Pending(w[c])
    requires forall k :: 0 <= k < |w| && k != c ==> k < |rows| && w[k] == rows[k]
    requires forall k :: 0 <= k < |rows| && k != c && rows[k].key == key ==> Pending(rows[k])
    requires c < |rows| ==> !Pending(rows[c]) && rows[c].key == key
    requires Explained(o, w[c], histories[key := h])
    ensures Invariant(o, w, histories[key := h])
  {
    var hs := histories[key := h];
    forall k | 0 <= k < |w| && !Pending(w[k]) ensures Explained(o, w[k], hs) {
      if k != c {
        assert Explained(o, rows[k], histories);
      }
    }
    forall x | x in hs ensures exists k :: 0 <= k < |w| && !Pending(w[k]) && w[k].key == x {
      if x != key {
        var k :| 0 <= k < |rows| && !Pending(rows[k]) && rows[k].key == x;
        assert w[k] == rows[k];
      }
    }
  }

  lemma OthersArePending(o: Oracle, rows: seq<Record>, key: string, histories: map<string, History>)
    requires Invariant(o, rows, histories)
    ensures forall k :: 0 <= k < |rows| && k != ChangedRow(rows, key) && rows[k].key == key ==> Pending(rows[k])
  {
  }

  lemma PendingRowIsKept(rows: seq<Record>, i: nat, now: int, merged: Payload)
    requires i < |rows| && Pending(rows[i])
    ensures var w := Written(rows, rows[i], now, merged); i < |w| && w[i] == rows[i]
  {
    WrittenElsewhere(rows, rows[i], now, merged);
    var at := Parent(rows, rows[i].key);
    assert i != ChangedRow(rows, rows[i].key);
  }

  /** The history of the key of f, with f. */
  ghost function WithFragment(now: int, rows: seq<Record>, f: Record, histories: map<string, History>)
    : map<string, History>
    requires f.payload.Some?
  {
    histories[f.key := Grown(Before(rows, f, histories), Accepted(now, f.space, f.payload.value, f.expiresAt))]
  }

  lemma WrittenIsExplained(o: Oracle, now: int, rows: seq<Record>, f: Record, histories: map<string, History>,
                           merged: Payload)
    requires Invariant(o, rows, histories) && f.payload.Some? && Merged(o, now, rows, f) == Ok(merged)
    ensures Invariant(o, Written(rows, f, now, merged), WithFragment(now, rows, f, histories))
  {
    var h := Grown(Before(rows, f, histories), Accepted(now, f.space, f.payload.value, f.expiresAt));
    WrittenElsewhere(rows, f, now, merged);
    ChangedIsExplained(o, now, rows, f, histories);
    OthersArePending(o, rows, f.key, histories);
    ReplacedKeepsInvariant(o, rows, Written(rows, f, now, merged), ChangedRow(rows, f.key), f.key, histories, h);
  }

  lemma AcceptedHasPayload(o: Oracle, now: int, rows: seq<Record>, f: Record)
    requires Merged(o, now, rows, f).Ok?
    ensures f.payload.Some?
  {
  }

  lemma AcceptingKeepsInvariant(o: Oracle, now: int, rows: seq<Record>, i: nat, histories: map<string, History>,
                                merged: Payload)
    requires Invariant(o, rows, histories) && i < |rows| && Pending(rows[i]) && rows[i].payload.Some?
    requires Merged(o, now, rows, rows[i]) == Ok(merged)
    ensures i < |Written(rows, rows[i], now, merged)|
    ensures Invariant(o, Without(Written(rows, rows[i], now, merged), i), WithFragment(now, rows, rows[i], histories))
  {
    WrittenIsExplained(o, now, rows, rows[i], histories, merged);
    PendingRowIsKept(rows, i, now, merged);
    WithoutPending(o, Written(rows, rows[i], now, merged), i, WithFragment(now, rows, rows[i], histories));
  }

  /** Every round keeps one validated row per key, each the fold of what was accepted for it. */
  lemma RoundKeepsInvariant(o: Oracle, now: int, rows: seq<Record>, histories: map<string, History>)
    requires Invariant(o, rows, histories)
    ensures Invariant(o, Round(o, now, rows), Histories(o, now, rows, histories))
  {
    var at := Oldest(rows);
    if at.Some? {
      var merged := Merged(o, now, rows, rows[at.value]);
      if merged.Ok? {
        AcceptedHasPayload(o, now, rows, rows[at.value]);
        AcceptingKeepsInvariant(o, now, rows, at.value, histories, merged.value);
      } else {
        WithoutPending(o, rows, at.value, histories);
      }
    }
  }

  ghost predicate Startable(rows: seq<Record>) {
    OnePerKey(rows) && forall i :: 0 <= i < |rows| && !Pending(rows[i]) ==> rows[i].payload.Some?
  }

  /** Histories for a table found at the start: each validated row stands for itself. */
  ghost function StartHistories(rows: seq<Record>): map<string, History> {
    if rows == [] then map[]
    else
      var before, r := StartHistories(rows[..|rows| - 1]), rows[|rows| - 1];
      if Pending(r) || r.payload.None? then before else before[r.key := History(r.payload.value, r.expiresAt, [])]
  }

  ghost predicate Keyed(rows: seq<Record>, r: map<string, History>) {
    && (forall k :: k in r ==> exists i :: 0 <= i < |rows| && !Pending(rows[i]) && rows[i].key == k)
    && forall i :: 0 <= i < |rows| && !Pending(rows[i]) ==>
         rows[i].key in r && rows[i].payload.Some? && r[rows[i].key] ==
             History(rows[i].payload.value, rows[i].expiresAt, [])
  }

  lemma KeyedGrows(rows: seq<Record>, r: Record, histories: map<string, History>)
    requires Startable(rows + [r]) && Keyed(rows, histories) && !Pending(r) && r.payload.Some?
    ensures Keyed(rows + [r], histories[r.key := History(r.payload.value, r.expiresAt, [])])
  {
    var all, more := rows + [r], histories[r.key := History(r.payload.value, r.expiresAt, [])];
    assert all[|rows|] == r;
    forall i | 0 <= i < |rows| && !Pending(all[i])
      ensures all[i].key in more && all[i].payload.Some? && more[all[i].key] ==
          History(all[i].payload.value, all[i].expiresAt, [])
    {
      assert all[i] == rows[i] && all[i].key != r.key;
    }
    forall k | k in more && k != r.key ensures exists i :: 0 <= i < |all| && !Pending(all[i]) && all[i].key == k {
      var i :| 0 <= i < |rows| && !Pending(rows[i]) && rows[i].key == k;
      assert all[i] == rows[i];
    }
  }

  lemma KeyedStays(rows: seq<Record>, r: Record, histories: map<string, History>)
    requires Keyed(rows, histories) && Pending(r)
    ensures Keyed(rows + [r], histories)
  {
    var all := rows + [r];
    forall k | k in histories ensures exists i :: 0 <= i < |all| && !Pending(all[i]) && all[i].key == k {
      var i :| 0 <= i < |rows| && !Pending(rows[i]) && rows[i].key == k;
      assert all[i] == rows[i];
    }
  }

  lemma {:induction false} StartIsKeyed(rows: seq<Record>)
    requires Startable(rows)
    ensures Keyed(rows, StartHistories(rows))
  {
    if rows != [] {
      var init, r := rows[..|rows| - 1], rows[|rows| - 1];
      StartIsKeyed(init);
      assert rows == init + [r];
      if Pending(r) {
        KeyedStays(init, r, StartHistories(init));
      } else {
        KeyedGrows(init, r, StartHistories(init));
      }
    }
  }

  /** Any table with at most one validated row per key is a place to start from. */
  lemma StartIsGood(o: Oracle, rows: seq<Record>)
    requires Startable(rows)
    ensures Invariant(o, rows, StartHistories(rows))
  {
    StartIsKeyed(rows);
    forall i | 0 <= i < |rows| && !Pending(rows[i]) ensures Explained(o, rows[i], StartHistories(rows)) {
    }
  }

  /** Between rounds the node stores fragments that reach it, as pending rows. */
  datatype Event = Incoming(record: Record) | Maintenance(now: int)

  function AfterOne(o: Oracle, rows: seq<Record>, e: Event): seq<Record> {
    match e
    case Incoming(r) => rows + [r.(validatedAt := None)]
    case Maintenance(now) => Round(o, now, rows)
  }

  function After(o: Oracle, rows: seq<Record>, events: seq<Event>): seq<Record> {
    if events == [] then rows else AfterOne(o, After(o, rows, events[..|events| - 1]), events[|events| - 1])
  }

  ghost function HistoriesAfter(o: Oracle, rows: seq<Record>, histories: map<string, History>, events: seq<Event>)
    : map<string, History>
  {
    if events == [] then histories
    else
      var init, e := events[..|events| - 1], events[|events| - 1];
      var before := HistoriesAfter(o, rows, histories, init);
      if e.Incoming? then before else Histories(o, e.now, After(o, rows, init), before)
  }

  lemma IncomingKeepsInvariant(o: Oracle, rows: seq<Record>, r: Record, histories: map<string, History>)
    requires Invariant(o, rows, histories) && Pending(r)
    ensures Invariant(o, rows + [r], histories)
  {
    var more := rows + [r];
    forall x | x in histories ensures exists j :: 0 <= j < |more| && !Pending(more[j]) && more[j].key == x {
      var k :| 0 <= k < |rows| && !Pending(rows[k]) && rows[k].key == x;
      assert more[k] == rows[k];
    }
  }

  /** In every run one validated row per key, each the fold of the fragments accepted for it, in their order. */
  lemma {:induction false} RunKeepsInvariant(o: Oracle, rows: seq<Record>, histories: map<string, History>,
                                             events: seq<Event>)
    requires Invariant(o, rows, histories)
    ensures Invariant(o, After(o, rows, events), HistoriesAfter(o, rows, histories, events))
  {
    if events != [] {
      var init, e := events[..|events| - 1], events[|events| - 1];
      RunKeepsInvariant(o, rows, histories, init);
      match e
      case Incoming(r) =>
        IncomingKeepsInvariant(o, After(o, rows, init), r.(validatedAt := None),
            HistoriesAfter(o, rows, histories, init));
      case Maintenance(now) =>
        RoundKeepsInvariant(o, now, After(o, rows, init), HistoriesAfter(o, rows, histories, init));
    }
  }

  /** The pending rows, or the validated ones, in table order. */
  function Select(rows: seq<Record>, pending: bool): seq<Record> {
    if rows == [] then []
    else if Pending(rows[0]) == pending then [rows[0]] + Select(rows[1..], pending)
    else Select(rows[1..], pending)
  }

  function PendingRows(rows: seq<Record>): seq<Record> {
    Select(rows, true)
  }

  function ValidatedRows(rows: seq<Record>): seq<Record> {
    Select(rows, false)
  }

  lemma {:induction false} SelectSplits(a: seq<Record>, b: seq<Record>, pending: bool)
    ensures Select(a + b, pending) == Select(a, pending) + Select(b, pending)
  {
    if a == [] {
      assert a + b == b;
    } else {
      assert (a + b)[1..] == a[1..] + b;
      SelectSplits(a[1..], b, pending);
    }
  }

  lemma WithoutKeepsValidated(rows: seq<Record>, i: nat)
    requires i < |rows| && Pending(rows[i])
    ensures ValidatedRows(Without(rows, i)) == ValidatedRows(rows)
  {
    SelectSplits(rows[..i], rows[i..], false);
    SelectSplits(rows[..i], rows[i + 1..], false);
    assert rows == rows[..i] + rows[i..] && rows[i..][1..] == rows[i + 1..];
  }

  lemma WithoutDrops(rows: seq<Record>, i: nat)
    requires i < |rows| && Pending(rows[i])
    ensures multiset(PendingRows(rows)) == multiset(PendingRows(Without(rows, i))) + multiset{rows[i]}
  {
    SelectSplits(rows[..i], rows[i..], true);
    SelectSplits(rows[..i], rows[i + 1..], true);
    assert rows == rows[..i] + rows[i..] && rows[i..][1..] == rows[i + 1..];
    assert Select(rows[i..], true) == [rows[i]] + Select(rows[i + 1..], true);
  }

  /** A refused fragment disappears and no validated row changes. */
  lemma RefusalLeavesValidatedRows(o: Oracle, now: int, rows: seq<Record>)
    requires Oldest(rows).Some? && Merged(o, now, rows, rows[Oldest(rows).value]).Err?
    ensures ValidatedRows(Round(o, now, rows)) == ValidatedRows(rows)
  {
    WithoutKeepsValidated(rows, Oldest(rows).value);
  }

  lemma {:induction false} WrittenKeepsPending(rows: seq<Record>, i: nat, r: Record)
    requires i < |rows| && !Pending(rows[i]) && !Pending(r)
    ensures PendingRows(rows[i := r]) == PendingRows(rows)
  {
    if i > 0 {
      WrittenKeepsPending(rows[1..], i - 1, r);
      assert rows[i := r][1..] == rows[1..][i - 1 := r];
    } else {
      assert rows[i := r][1..] == rows[1..];
    }
  }

  /** A round takes exactly one pending fragment away, the oldest, whether it is accepted or refused. */
  lemma RoundConsumesTheOldest(o: Oracle, now: int, rows: seq<Record>)
    requires Oldest(rows).Some?
    ensures multiset(PendingRows(rows)) == multiset(PendingRows(Round(o, now, rows)))
        + multiset{rows[Oldest(rows).value]}
  {
    var i := Oldest(rows).value;
    var merged := Merged(o, now, rows, rows[i]);
    if merged.Ok? {
      var w := Written(rows, rows[i], now, merged.value);
      var at := Parent(rows, rows[i].key);
      if at.Some? {
        WrittenKeepsPending(rows, at.value, w[at.value]);
      } else {
        SelectSplits(rows, [w[|rows|]], true);
        assert PendingRows([w[|rows|]]) == [];
        assert PendingRows(w) == PendingRows(rows);
      }
      WithoutDrops(w, i);
    } else {
      WithoutDrops(rows, i);
    }
  }

  /** The fragment that comes in with an event, and the one that a round takes. */
  ghost function Incomer(e: Event): multiset<Record> {
    if e.Incoming? then multiset{e.record.(validatedAt := None)} else multiset{}
  }

  ghost function TakenBy(rows: seq<Record>, e: Event): multiset<Record> {
    if e.Maintenance? && Oldest(rows).Some? then multiset{rows[Oldest(rows).value]} else multiset{}
  }

  ghost function CameIn(events: seq<Event>): multiset<Record> {
    if events == [] then multiset{} else CameIn(events[..|events| - 1]) + Incomer(events[|events| - 1])
  }

  ghost function Taken(o: Oracle, rows: seq<Record>, events: seq<Event>): multiset<Record> {
    if events == [] then multiset{}
    else
      var init := events[..|events| - 1];
      Taken(o, rows, init) + TakenBy(After(o, rows, init), events[|events| - 1])
  }

  lemma {:induction false} NothingPending(rows: seq<Record>)
    requires forall i :: 0 <= i < |rows| ==> !Pending(rows[i])
    ensures PendingRows(rows) == []
  {
    if rows != [] {
      NothingPending(rows[1..]);
    }
  }

  lemma EventConserves(o: Oracle, before: seq<Record>, e: Event)
    ensures multiset(PendingRows(before)) + Incomer(e) ==
            multiset(PendingRows(AfterOne(o, before, e))) + TakenBy(before, e)
  {
    match e
    case Incoming(r) =>
      SelectSplits(before, [r.(validatedAt := None)], true);
      assert PendingRows([r.(validatedAt := None)]) == [r.(validatedAt := None)];
    case Maintenance(now) =>
      if Oldest(before).Some? {
        RoundConsumesTheOldest(o, now, before);
      }
  }

  lemma SumsAddUp<T(!new)>(a: multiset<T>, b: multiset<T>, c: multiset<T>, d: multiset<T>, e: multiset<T>,
                           f: multiset<T>, g: multiset<T>)
    requires a + b == c + d && c + e == f + g
    ensures a + (b + e) == f + (d + g)
  {
    forall x ensures (a + (b + e))[x] == (f + (d + g))[x] {
      assert (a + b)[x] == (c + d)[x] && (c + e)[x] == (f + g)[x];
    }
  }

  /** In every run no fragment is lost: what was pending or came in is pending still, or a round has taken it. */
  lemma {:induction false} FragmentsAreConserved(o: Oracle, rows: seq<Record>, events: seq<Event>)
    ensures multiset(PendingRows(rows)) + CameIn(events) ==
            multiset(PendingRows(After(o, rows, events))) + Taken(o, rows, events)
  {
    if events == [] {
      assert CameIn(events) == multiset{} == Taken(o, rows, events);
    } else {
      var init, e := events[..|events| - 1], events[|events| - 1];
      var before, after := After(o, rows, init), After(o, rows, events);
      FragmentsAreConserved(o, rows, init);
      EventConserves(o, before, e);
      SumsAddUp(multiset(PendingRows(rows)), CameIn(init), multiset(PendingRows(before)), Taken(o, rows, init),
          Incomer(e), multiset(PendingRows(after)), TakenBy(before, e));
    }
  }

  /** As many rounds in a row as there are pending fragments deal with all of them. */
  lemma {:induction false} RoundsDealWithAll(o: Oracle, rows: seq<Record>, rounds: seq<Event>)
    requires forall e :: e in rounds ==> e.Maintenance?
    ensures |PendingRows(After(o, rows, rounds))| ==
            if |rounds| <= |PendingRows(rows)| then |PendingRows(rows)| - |rounds| else 0
  {
    if rounds != [] {
      var init, e := rounds[..|rounds| - 1], rounds[|rounds| - 1];
      assert e in rounds && forall x :: x in init ==> x in rounds;
      RoundsDealWithAll(o, rows, init);
      var before := After(o, rows, init);
      if Oldest(before).Some? {
        RoundConsumesTheOldest(o, e.now, before);
        assert |multiset(PendingRows(before))| == |multiset(PendingRows(Round(o, e.now, before)))| + 1;
      } else {
        NothingPending(before);
      }
    }
  }

  // ---------------------------------------------------------------- the expiry and the DRT content of a validated row

  /** The expiry of a validated row is the latest of those it was made from, and absent only if all are. */
  lemma {:induction false} FoldExpiryIsLatest(h: History)
    ensures FoldExpiry(h).None? <==> h.startExpiry.None? && forall a :: a in h.accepted ==> a.expiresAt.None?
    ensures FoldExpiry(h).Some? ==>
              FoldExpiry(h) == h.startExpiry || exists a :: a in h.accepted && a.expiresAt == FoldExpiry(h)
    ensures FoldExpiry(h).Some? ==>
              && (h.startExpiry.Some? ==> h.startExpiry.value <= FoldExpiry(h).value)
              && forall a :: a in h.accepted && a.expiresAt.Some? ==> a.expiresAt.value <= FoldExpiry(h).value
    decreases |h.accepted|
  {
    if h.accepted != [] {
      var n := |h.accepted| - 1;
      var before := h.(accepted := h.accepted[..n]);
      FoldExpiryIsLatest(before);
      assert h.accepted == before.accepted + [h.accepted[n]];
    }
  }

  function Arrivals(accepted: seq<Accepted>): seq<Arrival> {
    seq(|accepted|, i requires 0 <= i < |accepted| =>
      Arrival(accepted[i].now, if accepted[i].payload.Drt? then accepted[i].payload.routes else []))
  }

  lemma DrtStep(o: Oracle, space: Namespace, key: string, now: int, parent: Payload, fragment: Payload)
    requires parent.Drt? && MergeIn(o, space, key, now, parent, fragment).Ok?
    ensures fragment.Drt?
    ensures var m, at := MergeIn(o, space, key, now, parent, fragment).value, Site(o, key, parent.virtualKey);
            && m.Drt? && m.virtualKey == parent.virtualKey && m.routes ==
                MergeRoutes(at, now, parent.routes, fragment.routes)
            && !Refused(at, now, fragment.routes)
  {
  }

  lemma FoldedStep(at: Site, parent: seq<DrtEntry>, arrivals: seq<Arrival>, a: Arrival)
    requires !Refused(at, a.now, a.entries)
    ensures Folded(at, parent, arrivals + [a]) == MergeRoutes(at, a.now, Folded(at, parent, arrivals), a.entries)
  {
    assert (arrivals + [a])[..|arrivals|] == arrivals;
  }

  lemma ArrivalsGrow(accepted: seq<Accepted>, a: Accepted)
    requires a.payload.Drt?
    ensures Arrivals(accepted + [a]) == Arrivals(accepted) + [Arrival(a.now, a.payload.routes)]
  {
  }

  ghost predicate DrtResult(at: Site, a: Accepted, p: Payload, q: Payload)
    requires p.Drt?
  {
    && a.payload.Drt? && q.Drt? && q.virtualKey == p.virtualKey
    && q.routes == MergeRoutes(at, a.now, p.routes, a.payload.routes) && !Refused(at, a.now, a.payload.routes)
  }

  ghost predicate ActsAsDrt(merge: Merger, at: Site, accepted: seq<Accepted>) {
    forall a: Accepted, p: Payload {:trigger merge(a, p)} ::
      a in accepted && p.Drt? && p.virtualKey == at.virtualKey && merge(a, p).Ok? ==>
          DrtResult(at, a, p, merge(a, p).value)
  }

  ghost predicate IsFolded(at: Site, start: Payload, accepted: seq<Accepted>, p: Payload)
    requires start.Drt?
  {
    p.Drt? && p.virtualKey == start.virtualKey && p.routes == Folded(at, start.routes, Arrivals(accepted))
  }

  lemma {:induction false} DrtFold(merge: Merger, at: Site, start: Payload, accepted: seq<Accepted>)
    requires start.Drt? && start.virtualKey == at.virtualKey && ActsAsDrt(merge, at, accepted)
        && Fold(merge, start, accepted).Ok?
    ensures IsFolded(at, start, accepted, Fold(merge, start, accepted).value)
  {
    if accepted == [] {
      assert Arrivals([]) == [];
    } else {
      var init, a := accepted[..|accepted| - 1], accepted[|accepted| - 1];
      assert accepted == init + [a];
      FoldOfMore(merge, start, init, a);
      DrtFold(merge, at, start, init);
      ArrivalsGrow(init, a);
      FoldedStep(at, start.routes, Arrivals(init), Arrival(a.now, a.payload.routes));
    }
  }

  lemma MergerActsAsDrt(o: Oracle, key: string, virtualKey: string, accepted: seq<Accepted>)
    ensures ActsAsDrt(MergerOf(o, key), Site(o, key, virtualKey), accepted)
  {
    var at := Site(o, key, virtualKey);
    forall a: Accepted, p: Payload | a in accepted && p.Drt? && p.virtualKey == virtualKey && MergerOf(o, key)(a, p).Ok?
      ensures DrtResult(at, a, p, MergerOf(o, key)(a, p).value)
    {
      DrtStep(o, a.space, key, a.now, p, a.payload);
    }
  }

  /**
   * A validated DRT record read at a time not before the acceptances has, per final path id, the best rank of all
   * entries ever accepted for its key, as if they had been merged at once at that time.
   */
  lemma ValidatedDrtIsBestOfAccepted(o: Oracle, rows: seq<Record>, histories: map<string, History>, i: nat, later: int)
    requires Invariant(o, rows, histories) && i < |rows| && !Pending(rows[i])
    requires rows[i].key in histories && histories[rows[i].key].start.Drt?
    requires forall a :: a in histories[rows[i].key].accepted ==> a.now <= later
    ensures rows[i].payload.Some? && rows[i].payload.value.Drt?
    ensures var h := histories[rows[i].key];
            var at := Site(o, rows[i].key, h.start.virtualKey);
            SameBest(Live(at, later, rows[i].payload.value.routes),
                     MergeRoutes(at, later, h.start.routes, AllEntries(Arrivals(h.accepted))))
  {
    var h := histories[rows[i].key];
    assert Explained(o, rows[i], histories);
    MergerActsAsDrt(o, rows[i].key, h.start.virtualKey, h.accepted);
    DrtFold(MergerOf(o, rows[i].key), Site(o, rows[i].key, h.start.virtualKey), h.start, h.accepted);
    forall a | a in Arrivals(h.accepted) ensures a.now <= later {
      var k :| 0 <= k < |h.accepted| && Arrivals(h.accepted)[k] == a;
      assert h.accepted[k] in h.accepted;
    }
    MergingEarlyIsHarmless(Site(o, rows[i].key, h.start.virtualKey), h.start.routes, Arrivals(h.accepted), later);
  }

  // ---------------------------------------------------------------- the content of the other validated rows

  /** The parts of a payload of one kind, and none for the other kinds. */
  type PartsOf<T> = Payload -> Option<seq<T>>

  function HoldersOf(p: Payload): Option<seq<Holder>> {
    if p.Ddt? then Some(p.holders) else None
  }

  function EntriesOf(p: Payload): Option<seq<DttEntry>> {
    if p.Dtt? then Some(p.entries) else None
  }

  function HolderAccepted(o: Oracle, key: string): (Accepted, Holder) -> bool {
    (a: Accepted, x: Holder) => HolderIsValid(o, key, a.now, x)
  }

  function EntryAccepted(o: Oracle, key: string): (Accepted, DttEntry) -> bool {
    (a: Accepted, x: DttEntry) => DttEntryIsValid(o, key, a.now, x)
  }

  /** A part of an accepted fragment that was valid when the fragment was accepted. */
  ghost predicate Contributed<T(!new)>(parts: PartsOf<T>, valid: (Accepted, T) -> bool, a: Accepted, x: T) {
    parts(a.payload).Some? && x in parts(a.payload).value && valid(a, x)
  }

  ghost predicate Gathered<T(!new)>(parts: PartsOf<T>, valid: (Accepted, T) -> bool, start: seq<T>,
                                    accepted: seq<Accepted>, x: T)
  {
    x in start || exists a :: a in accepted && Contributed(parts, valid, a, x)
  }

  ghost predicate Adds<T(!new)>(parts: PartsOf<T>, valid: (Accepted, T) -> bool, a: Accepted, p: Payload, q: Payload) {
    && parts(p).Some? && parts(q).Some?
    && forall x :: x in parts(q).value <==> x in parts(p).value || Contributed(parts, valid, a, x)
  }

  ghost predicate ActsAsUnion<T(!new)>(merge: Merger, parts: PartsOf<T>, valid: (Accepted, T) -> bool,
                                       accepted: seq<Accepted>)
  {
    forall a: Accepted, p: Payload {:trigger merge(a, p)} ::
      a in accepted && parts(p).Some? && merge(a, p).Ok? ==> Adds(parts, valid, a, p, merge(a, p).value)
  }

  lemma {:induction false} UnionFold<T(!new)>(merge: Merger, parts: PartsOf<T>, valid: (Accepted, T) -> bool,
                                              start: Payload, accepted: seq<Accepted>, x: T)
    requires parts(start).Some? && ActsAsUnion(merge, parts, valid, accepted) && Fold(merge, start, accepted).Ok?
    ensures parts(Fold(merge, start, accepted).value).Some?
    ensures x in parts(Fold(merge, start, accepted).value).value <==>
            Gathered(parts, valid, parts(start).value, accepted, x)
  {
    if accepted != [] {
      var init, a := accepted[..|accepted| - 1], accepted[|accepted| - 1];
      assert accepted == init + [a];
      FoldOfMore(merge, start, init, a);
      UnionFold(merge, parts, valid, start, init, x);
      assert forall b :: b in accepted <==> b in init || b == a;
    }
  }

  /** Only one table merges into a payload of one kind. */
  lemma KindDecides(o: Oracle, space: Namespace, key: string, now: int, parent: Payload, fragment: Payload)
    requires MergeIn(o, space, key, now, parent, fragment).Ok?
    ensures parent.Ddt? ==> space == DdtTable
    ensures parent.Dtt? ==> space == DttTable
  {
  }

  lemma DdtStep(o: Oracle, space: Namespace, key: string, now: int, parent: Payload, fragment: Payload)
    requires parent.Ddt? && MergeIn(o, space, key, now, parent, fragment).Ok?
    ensures var r := MergeIn(o, space, key, now, parent, fragment).value;
            && SameDescription(parent, fragment) && SameDescription(parent, r)
            && IsUnion(HolderTest(o, key, now), parent.holders, fragment.holders, r.holders)
  {
    KindDecides(o, space, key, now, parent, fragment);
    DdtMergeIsUnion(o, key, now, parent, fragment);
  }

  lemma DttStep(o: Oracle, space: Namespace, key: string, now: int, parent: Payload, fragment: Payload)
    requires parent.Dtt? && MergeIn(o, space, key, now, parent, fragment).Ok?
    ensures var r := MergeIn(o, space, key, now, parent, fragment).value;
            && fragment.Dtt? && r.Dtt?
            && IsUnion(DttTest(o, key, now), parent.entries, fragment.entries, r.entries)
  {
    KindDecides(o, space, key, now, parent, fragment);
    DttMergeIsUnion(o, key, now, parent, fragment);
  }

  /** A DDT record has the holders it began with and every holder that was valid when its fragment was accepted. */
  lemma DdtFoldIsUnion(o: Oracle, key: string, h: History, x: Holder)
    requires h.start.Ddt? && FoldPayload(o, key, h).Ok?
    ensures FoldPayload(o, key, h).value.Ddt?
    ensures x in FoldPayload(o, key, h).value.holders <==>
            Gathered(HoldersOf, HolderAccepted(o, key), h.start.holders, h.accepted, x)
  {
    var merge, valid := MergerOf(o, key), HolderAccepted(o, key);
    forall a: Accepted, p: Payload | a in h.accepted && HoldersOf(p).Some? && merge(a, p).Ok?
      ensures Adds(HoldersOf, valid, a, p, merge(a, p).value)
    {
      DdtStep(o, a.space, key, a.now, p, a.payload);
    }
    UnionFold(merge, HoldersOf, valid, h.start, h.accepted, x);
  }

  /** A DTT record has the entries it began with and every entry that was valid when its fragment was accepted. */
  lemma DttFoldIsUnion(o: Oracle, key: string, h: History, x: DttEntry)
    requires h.start.Dtt? && FoldPayload(o, key, h).Ok?
    ensures FoldPayload(o, key, h).value.Dtt?
    ensures x in FoldPayload(o, key, h).value.entries <==>
            Gathered(EntriesOf, EntryAccepted(o, key), h.start.entries, h.accepted, x)
  {
    var merge, valid := MergerOf(o, key), EntryAccepted(o, key);
    forall a: Accepted, p: Payload | a in h.accepted && EntriesOf(p).Some? && merge(a, p).Ok?
      ensures Adds(EntriesOf, valid, a, p, merge(a, p).value)
    {
      DttStep(o, a.space, key, a.now, p, a.payload);
    }
    UnionFold(merge, EntriesOf, valid, h.start, h.accepted, x);
  }

  lemma DptStep(o: Oracle, space: Namespace, key: string, now: int, parent: Payload, fragment: Payload)
    requires parent.Dpt? && MergeIn(o, space, key, now, parent, fragment).Ok?
    ensures fragment.Dpt?
    ensures MergeIn(o, space, key, now, parent, fragment).value ==
            if Newer(parent.lastModified, fragment.lastModified) then fragment else parent
    ensures fragment.nonce >= 0
  {
  }

  ghost predicate DptResult(a: Accepted, p: Payload, q: Payload)
    requires p.Dpt?
  {
    a.payload.Dpt? && q == if Newer(p.lastModified, a.payload.lastModified) then a.payload else p
  }

  ghost predicate ActsAsDpt(merge: Merger, accepted: seq<Accepted>) {
    forall a: Accepted, p: Payload {:trigger merge(a, p)} :: a in accepted && p.Dpt? && merge(a, p).Ok? ==>
        DptResult(a, p, merge(a, p).value)
  }

  /** One of the payloads, and none of the others is newer. */
  ghost predicate IsLatest(p: Payload, start: Payload, accepted: seq<Accepted>)
    requires start.Dpt?
  {
    && p.Dpt?
    && (p == start || exists a :: a in accepted && a.payload == p)
    && !Newer(p.lastModified, start.lastModified)
    && forall a :: a in accepted ==> a.payload.Dpt? && !Newer(p.lastModified, a.payload.lastModified)
  }

  lemma LatestGrows(p: Payload, q: Payload, start: Payload, accepted: seq<Accepted>, a: Accepted)
    requires start.Dpt? && IsLatest(p, start, accepted) && DptResult(a, p, q)
    ensures IsLatest(q, start, accepted + [a])
  {
    assert forall b :: b in accepted + [a] <==> b in accepted || b == a;
    if q == p && p != start {
      var b :| b in accepted && b.payload == p;
      assert b in accepted + [a];
    }
  }

  lemma {:induction false} DptFold(merge: Merger, start: Payload, accepted: seq<Accepted>)
    requires start.Dpt? && ActsAsDpt(merge, accepted) && Fold(merge, start, accepted).Ok?
    ensures IsLatest(Fold(merge, start, accepted).value, start, accepted)
  {
    if accepted != [] {
      var init, a := accepted[..|accepted| - 1], accepted[|accepted| - 1];
      assert accepted == init + [a];
      FoldOfMore(merge, start, init, a);
      DptFold(merge, start, init);
      LatestGrows(Fold(merge, start, init).value, Fold(merge, start, accepted).value, start, init, a);
    }
  }

  /** A DPT record is one of the payloads it was made from, and none of the others is newer. */
  lemma DptFoldIsLatest(o: Oracle, key: string, h: History)
    requires h.start.Dpt? && FoldPayload(o, key, h).Ok?
    ensures IsLatest(FoldPayload(o, key, h).value, h.start, h.accepted)
  {
    var merge := MergerOf(o, key);
    forall a: Accepted, p: Payload | a in h.accepted && p.Dpt? && merge(a, p).Ok?
      ensures DptResult(a, p, merge(a, p).value)
    {
      DptStep(o, a.space, key, a.now, p, a.payload);
    }
    DptFold(merge, h.start, h.accepted);
  }

  lemma DpntStep(o: Oracle, space: Namespace, key: string, now: int, parent: Payload, fragment: Payload)
    requires parent.Dpnt? && MergeIn(o, space, key, now, parent, fragment).Ok?
    ensures fragment.Dpnt? && MergeIn(o, space, key, now, parent, fragment).value == fragment
  {
  }

  ghost predicate ActsAsDpnt(merge: Merger, accepted: seq<Accepted>) {
    forall a: Accepted, p: Payload {:trigger merge(a, p)} ::
      a in accepted && p.Dpnt? && merge(a, p).Ok? ==> a.payload.Dpnt? && merge(a, p).value == a.payload
  }

  lemma {:induction false} DpntFold(merge: Merger, start: Payload, accepted: seq<Accepted>)
    requires start.Dpnt? && ActsAsDpnt(merge, accepted) && Fold(merge, start, accepted).Ok?
    ensures Fold(merge, start, accepted).value.Dpnt?
    ensures Fold(merge, start, accepted).value == if accepted == [] then start else accepted[|accepted| - 1].payload
  {
    if accepted != [] {
      var init, a := accepted[..|accepted| - 1], accepted[|accepted| - 1];
      assert accepted == init + [a];
      FoldOfMore(merge, start, init, a);
      DpntFold(merge, start, init);
    }
  }

  /** A DPNT record is the fragment accepted last. */
  lemma DpntFoldIsLast(o: Oracle, key: string, h: History)
    requires h.start.Dpnt? && FoldPayload(o, key, h).Ok?
    ensures FoldPayload(o, key, h).value == if h.accepted == [] then h.start else h.accepted[|h.accepted| - 1].payload
  {
    var merge := MergerOf(o, key);
    forall a: Accepted, p: Payload | a in h.accepted && p.Dpnt? && merge(a, p).Ok?
      ensures a.payload.Dpnt? && merge(a, p).value == a.payload
    {
      DpntStep(o, a.space, key, a.now, p, a.payload);
    }
    DpntFold(merge, h.start, h.accepted);
  }

  // ---------------------------------------------------------------- the first fragment of a key

  function First(o: Oracle, space: Namespace, key: string, now: int, p: Payload): Result<Payload, MergeError> {
    var seed := Seed(space, p);
    if seed.Err? then seed else MergeIn(o, space, key, now, seed.value, p)
  }

  /**
   * A first DRT fragment is accepted exactly if it is in its table, under its key, and empty or has a sound entry. Its
   * seed adds nothing: what is stored is the best of its own live entries.
   */
  lemma FirstDrt(o: Oracle, space: Namespace, key: string, now: int, p: Payload)
    requires p.Drt?
    ensures First(o, space, key, now, p).Ok? <==>
            && space == DrtTable && key == o.hash("drt|" + o.hash(p.virtualKey))
            && (p.routes == [] || exists e :: e in p.routes && EntryIsSound(o, key, p.virtualKey, now, e))
    ensures First(o, space, key, now, p).Ok? ==>
              var r, at := First(o, space, key, now, p).value, Site(o, key, p.virtualKey);
              && r.Drt? && r.virtualKey == p.virtualKey
              && SameBest(r.routes, Live(at, now, p.routes)) && StrictlySortedBy(r.routes, PathBefore)
  {
    if space == DrtTable {
      var at := Site(o, key, p.virtualKey);
      DrtAcceptedExactlyWhen(o, key, now, Drt(p.virtualKey, [], 0), p);
      MergeIsBestOfBoth(at, now, [], p.routes);
      assert Live(at, now, []) + Live(at, now, p.routes) == Live(at, now, p.routes);
    }
  }

  /** A first DDT fragment is accepted if it is empty or has a sound holder, and keeps exactly those it has. */
  lemma FirstDdt(o: Oracle, space: Namespace, key: string, now: int, p: Payload, x: Holder)
    requires p.Ddt?
    ensures First(o, space, key, now, p).Ok? <==>
            space == DdtTable && (p.holders == [] || exists h :: h in p.holders && HolderIsSound(o, key, now, h))
    ensures First(o, space, key, now, p).Ok? ==>
              var r := First(o, space, key, now, p).value;
              && r.Ddt? && r.title == p.title && r.kind == p.kind && r.tags == p.tags
              && (x in r.holders <==> x in p.holders && HolderIsSound(o, key, now, x))
  {
    if space == DdtTable {
      DdtHoldsTheSound(o, key, now, Ddt(p.title, p.kind, p.tags, []), p, x);
    }
  }

  /** A first DTT fragment is accepted if it is empty or has a sound entry, and keeps exactly those it has. */
  lemma FirstDtt(o: Oracle, space: Namespace, key: string, now: int, p: Payload, x: DttEntry)
    requires p.Dtt?
    ensures First(o, space, key, now, p).Ok? <==>
            space == DttTable && (p.entries == [] || exists e :: e in p.entries && DttEntryIsSound(o, key, now, e))
    ensures First(o, space, key, now, p).Ok? ==>
              var r := First(o, space, key, now, p).value;
              r.Dtt? && (x in r.entries <==> x in p.entries && DttEntryIsSound(o, key, now, x))
  {
    if space == DttTable {
      DttHoldsTheSound(o, key, now, Dtt([]), p, x);
    }
  }

  /**
   * A first DPT fragment is accepted exactly if it is in its table, under its key, signed and worked for. It is stored
   * as it is if and only if its timestamp parses; otherwise the placeholder is stored, validated, with no timestamp, no
   * target, no signature and no nonce.
   */
  lemma FirstDpt(o: Oracle, space: Namespace, key: string, now: int, p: Payload)
    requires p.Dpt?
    ensures First(o, space, key, now, p).Ok? <==>
            && space == DptTable && key == o.hash("dpt|" + o.hash(p.owner) + "|" + p.name)
            && o.verify(OfDpt(key, p.owner, p.name, p.content, p.lastModified.text, p.target), p.mark, p.owner)
            && Worked(o, RecordMaterial(key, p.(nonce := 0)), p.nonce)
    ensures First(o, space, key, now, p).Ok? ==>
              && (First(o, space, key, now, p).value == p <==> p.lastModified.instant.Some?)
              && (p.lastModified.instant.None? ==>
                    First(o, space, key, now, p).value ==
                    Dpt(p.owner, p.name, p.content, Timestamp("", None), "", "", UNCOMPUTED))
  {
    if space == DptTable {
      DptAcceptedExactlyWhen(o, key, Dpt(p.owner, p.name, p.content, Timestamp("", None), "", "", UNCOMPUTED), p);
    }
  }

  /** A first DPNT fragment is accepted under the same conditions, and is stored as it is. */
  lemma FirstDpnt(o: Oracle, space: Namespace, key: string, now: int, p: Payload)
    requires p.Dpnt?
    ensures First(o, space, key, now, p).Ok? <==>
            && space == DpntTable && key == o.hash("dpnt|" + o.hash(p.physicalKey))
            && o.verify(OfDpnt(key, p.physicalKey, p.description), p.signature, p.physicalKey)
            && Worked(o, RecordMaterial(key, p.(powNonce := 0)), p.powNonce)
    ensures First(o, space, key, now, p).Ok? ==> First(o, space, key, now, p).value == p
  {
    if space == DpntTable {
      DpntAcceptedExactlyWhen(o, key, Dpnt(p.physicalKey, "", "", UNCOMPUTED), p);
    }
  }

  lemma FirstIsMerged(o: Oracle, now: int, rows: seq<Record>, f: Record)
    requires Parent(rows, f.key).None? && f.payload.Some?
    ensures Merged(o, now, rows, f) == First(o, f.space, f.key, now, f.payload.value)
  {
  }

  /**
   * A round whose oldest pending row is the first of its key: if the fragment is accepted, the table gains one
   * validated row with what became of it, and otherwise nothing; the pending row goes either way.
   */
  lemma RoundBeginsRecord(o: Oracle, now: int, rows: seq<Record>, i: nat)
    requires Oldest(rows) == Some(i) && Parent(rows, rows[i].key).None? && rows[i].payload.Some?
    ensures var f, first := rows[i], First(o, rows[i].space, rows[i].key, now, rows[i].payload.value);
            Round(o, now, rows) ==
            Without(rows + if first.Err? then []
                    else [Record(f.space, f.key, Some(first.value), f.source, now, Some(now), f.expiresAt)], i)
  {
    FirstIsMerged(o, now, rows, rows[i]);
    assert rows + [] == rows;
  }

  /** The row after fragment f was merged into it: its new payload, the fragment's source, the later expiry. */
  ghost predicate IsMergeOf(row: Record, kept: Record, f: Record, merged: Payload, now: int) {
    && (row.space, row.key, row.createdAt) == (kept.space, kept.key, kept.createdAt)
    && (row.payload, row.source, row.validatedAt) == (Some(merged), f.source, Some(now))
    && (row.expiresAt == kept.expiresAt || row.expiresAt == f.expiresAt)
    && (kept.expiresAt.Some? ==> row.expiresAt.Some? && row.expiresAt.value >= kept.expiresAt.value)
    && (f.expiresAt.Some? ==> row.expiresAt.Some? && row.expiresAt.value >= f.expiresAt.value)
  }

  lemma WrittenIsMerge(rows: seq<Record>, f: Record, now: int, merged: Payload, at: nat) returns (row: Record)
    requires Parent(rows, f.key) == Some(at)
    ensures IsMergeOf(row, rows[at], f, merged, now) && Written(rows, f, now, merged) == rows[at := row]
  {
    row := Written(rows, f, now, merged)[at];
  }

  /**
   * A round whose oldest pending row has a validated row for its key: if the merge of the two payloads is accepted,
   * that row becomes the merge, and otherwise no row changes; the pending row goes either way.
   */
  lemma RoundMergesRecord(o: Oracle, now: int, rows: seq<Record>, i: nat, at: nat) returns (row: Record)
    requires Oldest(rows) == Some(i) && Parent(rows, rows[i].key) == Some(at)
    requires rows[i].payload.Some? && rows[at].payload.Some?
    ensures at != i
    ensures var f, kept := rows[i], rows[at];
            var merged := MergeIn(o, f.space, f.key, now, kept.payload.value, f.payload.value);
            if merged.Err? then Round(o, now, rows) == Without(rows, i)
            else IsMergeOf(row, kept, f, merged.value, now) && Round(o, now, rows) == Without(rows[at := row], i)
  {
    var merged := MergeIn(o, rows[i].space, rows[i].key, now, rows[at].payload.value, rows[i].payload.value);
    assert Merged(o, now, rows, rows[i]) == merged;
    row := rows[at];
    if merged.Ok? {
      row := WrittenIsMerge(rows, rows[i], now, merged.value, at);
    }
  }

  /** A payload that does not parse, on either side, is refused. */
  lemma UnreadableIsRefused(o: Oracle, now: int, rows: seq<Record>, i: nat)
    requires Oldest(rows) == Some(i)
    requires rows[i].payload.None? || (Parent(rows, rows[i].key).Some? &&
                                       rows[Parent(rows, rows[i].key).value].payload.None?)
    ensures Round(o, now, rows) == Without(rows, i)
  {
  }

  /** The local table of DHT records; `histories` is for the proof only. */
  class DhtStore {
    var rows: seq<Record>
    ghost var histories: map<string, History>

    ghost predicate Good(o: Oracle)
      reads this
    {
      Invariant(o, rows, histories)
    }

    constructor (o: Oracle, rows: seq<Record>)
      requires Startable(rows)
      ensures Good(o) && this.rows == rows && histories == StartHistories(rows)
    {
      StartIsGood(o, rows);
      this.rows := rows;
      histories := StartHistories(rows);
    }

    method ValidateLocalRecords(o: Oracle, now: int)
      requires Good(o)
      modifies this
      ensures Good(o)
      ensures rows == Round(o, now, old(rows))
      ensures histories == Histories(o, now, old(rows), old(histories))
    {
      RoundKeepsInvariant(o, now, rows, histories);
      histories := Histories(o, now, rows, histories);
      var oldest := Oldest(rows);
      if oldest.None? {
        return;
      }
      var fragment := rows[oldest.value];
      var parent := Parent(rows, fragment.key);
      var merged := Merged(o, now, rows, fragment);
      if merged.Err? {
        rows := Without(rows, oldest.value);
        return;
      }
      if parent.None? {
        var created := Record(fragment.space, fragment.key, Some(merged.value), fragment.source, now, Some(now),
                              PreferredExpiry(None, fragment.expiresAt));
        rows := rows + [created];
      } else {
        var kept := rows[parent.value];
        var updated := kept.(payload := Some(merged.value), source := fragment.source, validatedAt := Some(now),
                             expiresAt := PreferredExpiry(kept.expiresAt, fragment.expiresAt));
        rows := rows[parent.value := updated];
      }
      rows := Without(rows, oldest.value);
    }
  }
}
