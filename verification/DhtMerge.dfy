/** `validate_and_merge` for all namespaces. */
module DhtMerge {
  import opened DhtRecords
  import opened DhtUnion
  import opened DrtMerge
  import opened Ordering
  import opened Wrappers

  datatype MergeError =
    | WrongPayload | KeyMismatch | OtherVirtualNode | NoValidPart | OtherMetadata | BadSignature | UnknownNamespace

  function HolderKey(h: Holder): seq<string> {
    [h.virtualKey, h.expires.text, h.signature]
  }

  predicate HolderBefore(a: Holder, b: Holder) {
    KeyLess(HolderKey(a), HolderKey(b))
  }

  function DttKey(e: DttEntry): seq<string> {
    [e.resource, e.virtualKey, e.created, e.expires.text, e.signature]
  }

  predicate DttBefore(a: DttEntry, b: DttEntry) {
    KeyLess(DttKey(a), DttKey(b))
  }

  /** By virtual node, then by the text of the expiry, then by signature. */
  lemma HoldersAreOrdered()
    ensures IsOrder(HolderBefore)
    ensures forall a, b :: HolderBefore(a, b) <==>
              || Less(a.virtualKey, b.virtualKey)
              || (a.virtualKey == b.virtualKey && Less(a.expires.text, b.expires.text))
              || (a.virtualKey == b.virtualKey && a.expires.text == b.expires.text && Less(a.signature, b.signature))
  {
    forall a, b
      ensures HolderBefore(a, b) <==>
              || Less(a.virtualKey, b.virtualKey)
              || (a.virtualKey == b.virtualKey && Less(a.expires.text, b.expires.text))
              || (a.virtualKey == b.virtualKey && a.expires.text == b.expires.text && Less(a.signature, b.signature))
    {
      LessThree(a.virtualKey, a.expires.text, a.signature, b.virtualKey, b.expires.text, b.signature);
    }
    KeysAreOrdered();
    OrderByKey(HolderKey, KeyLess, HolderBefore);
  }

  lemma LessThree(a: string, b: string, c: string, d: string, e: string, f: string)
    ensures KeyLess([a, b, c], [d, e, f]) <==> Less(a, d) || (a == d && (Less(b, e) || (b == e && Less(c, f))))
  {
    assert [a, b, c][1..] == [b, c] && [b, c][1..] == [c] && [c][1..] == [];
    assert [d, e, f][1..] == [e, f] && [e, f][1..] == [f] && [f][1..] == [];
  }

  /** By resource, then by virtual node, then by the time of creation, the text of the expiry and the signature. */
  lemma DttEntriesAreOrdered()
    ensures IsOrder(DttBefore)
    ensures forall a, b :: DttBefore(a, b) <==>
              || Less(a.resource, b.resource)
              || (a.resource == b.resource && Less(a.virtualKey, b.virtualKey))
              || (a.resource == b.resource && a.virtualKey == b.virtualKey &&
                  (|| Less(a.created, b.created)
                   || (a.created == b.created && Less(a.expires.text, b.expires.text))
                   || (a.created == b.created && a.expires.text == b.expires.text && Less(a.signature, b.signature))))
  {
    forall a, b ensures KeyLess(DttKey(a), DttKey(b)) <==>
                        || Less(a.resource, b.resource)
                        || (a.resource == b.resource &&
                            (|| Less(a.virtualKey, b.virtualKey)
                             || (a.virtualKey == b.virtualKey && KeyLess([a.created, a.expires.text, a.signature],
                                                                         [b.created, b.expires.text, b.signature])))) {
      assert DttKey(a)[1..][1..] == [a.created, a.expires.text, a.signature];
      assert DttKey(b)[1..][1..] == [b.created, b.expires.text, b.signature];
    }
    forall a: DttEntry, b: DttEntry {
      LessThree(a.created, a.expires.text, a.signature, b.created, b.expires.text, b.signature);
    }
    KeysAreOrdered();
    OrderByKey(DttKey, KeyLess, DttBefore);
  }

  function HolderTest(o: Oracle, key: string, now: int): Holder -> bool {
    (h: Holder) => HolderIsValid(o, key, now, h)
  }

  function DttTest(o: Oracle, key: string, now: int): DttEntry -> bool {
    (e: DttEntry) => DttEntryIsValid(o, key, now, e)
  }

  // ---------------------------------------------------------------- one merge per namespace

  /** `_is_fragment_newer`. */
  predicate Newer(parent: Timestamp, fragment: Timestamp) {
    fragment.instant.Some? && (parent.instant.None? || fragment.instant.value > parent.instant.value)
  }

  function MergeDrt(o: Oracle, key: string, now: int, parent: Payload, fragment: Payload): Result<Payload, MergeError> {
    if !parent.Drt? || !fragment.Drt? then Err(WrongPayload)
    else if key != o.hash("drt|" + o.hash(parent.virtualKey)) then Err(KeyMismatch)
    else if parent.virtualKey != fragment.virtualKey then Err(OtherVirtualNode)
    else
      var at := Site(o, key, parent.virtualKey);
      if Refused(at, now, fragment.routes) then Err(NoValidPart)
      else Ok(Drt(parent.virtualKey, MergeRoutes(at, now, parent.routes, fragment.routes), now))
  }

  function MergeDdt(o: Oracle, key: string, now: int, parent: Payload, fragment: Payload): Result<Payload, MergeError> {
    if !parent.Ddt? || !fragment.Ddt? then Err(WrongPayload)
    else if !SameDescription(parent, fragment) then Err(OtherMetadata)
    else
      var merged := MergeParts(HolderTest(o, key, now), HolderBefore, parent.holders, fragment.holders);
      if merged.None? then Err(NoValidPart) else Ok(Ddt(parent.title, parent.kind, parent.tags, merged.value))
  }

  function MergeDtt(o: Oracle, key: string, now: int, parent: Payload, fragment: Payload): Result<Payload, MergeError> {
    if !parent.Dtt? || !fragment.Dtt? then Err(WrongPayload)
    else
      var merged := MergeParts(DttTest(o, key, now), DttBefore, parent.entries, fragment.entries);
      if merged.None? then Err(NoValidPart) else Ok(Dtt(merged.value))
  }

  function MergeDpt(o: Oracle, key: string, parent: Payload, fragment: Payload): Result<Payload, MergeError> {
    if !parent.Dpt? || !fragment.Dpt? then Err(WrongPayload)
    else if key != o.hash("dpt|" + o.hash(fragment.owner) + "|" + fragment.name) then Err(KeyMismatch)
    else if !DptIsValid(o, key, fragment) then Err(BadSignature)
    else if !Newer(parent.lastModified, fragment.lastModified) then Ok(parent)
    else Ok(fragment)
  }

  function MergeDpnt(o: Oracle, key: string, parent: Payload, fragment: Payload): Result<Payload, MergeError> {
    if !parent.Dpnt? || !fragment.Dpnt? then Err(WrongPayload)
    else if key != o.hash("dpnt|" + o.hash(fragment.physicalKey)) then Err(KeyMismatch)
    else if !DpntIsValid(o, key, fragment) then Err(BadSignature)
    else Ok(fragment)
  }

  /** `validate_and_merge`, by what the namespace names. */
  function MergeIn(o: Oracle, space: Namespace, key: string, now: int, parent: Payload, fragment: Payload)
    : Result<Payload, MergeError>
  {
    match space
    case DpntTable => MergeDpnt(o, key, parent, fragment)
    case DrtTable => MergeDrt(o, key, now, parent, fragment)
    case DdtTable => MergeDdt(o, key, now, parent, fragment)
    case DttTable => MergeDtt(o, key, now, parent, fragment)
    case DptTable => MergeDpt(o, key, parent, fragment)
    case OtherTable => Err(UnknownNamespace)
  }

  predicate SameDescription(a: Payload, b: Payload) {
    a.Ddt? && b.Ddt? && a.title == b.title && a.kind == b.kind && a.tags == b.tags
  }

  predicate BothDtt(a: Payload, b: Payload) {
    a.Dtt? && b.Dtt?
  }

  // ---------------------------------------------------------------- DDT: a union of holders

  ghost predicate SameHolders(a: Payload, b: Payload) {
    a.Ddt? && b.Ddt? && Same(a.holders, b.holders)
  }

  lemma DdtMergeAccepts(o: Oracle, key: string, now: int, parent: Payload, fragment: Payload)
    ensures MergeDdt(o, key, now, parent, fragment).Ok? <==>
            SameDescription(parent, fragment) && Accepts(HolderTest(o, key, now), fragment.holders)
  {
    if SameDescription(parent, fragment) {
      MergeIsUnion(HolderTest(o, key, now), HolderBefore, parent.holders, fragment.holders);
    }
  }

  /** An accepted merge is the union of what was kept and what is valid now, under the same description. */
  lemma DdtMergeIsUnion(o: Oracle, key: string, now: int, parent: Payload, fragment: Payload)
    requires MergeDdt(o, key, now, parent, fragment).Ok?
    ensures var r := MergeDdt(o, key, now, parent, fragment).value;
            && SameDescription(parent, fragment) && SameDescription(parent, r)
            && IsUnion(HolderTest(o, key, now), parent.holders, fragment.holders, r.holders)
  {
    MergeIsUnion(HolderTest(o, key, now), HolderBefore, parent.holders, fragment.holders);
  }

  /** Two accepted fragments may come in either order, and again, without changing the set of holders. */
  lemma DdtFragmentsCommute(o: Oracle, key: string, now: int, parent: Payload, f: Payload, g: Payload)
    requires MergeDdt(o, key, now, parent, f).Ok? && MergeDdt(o, key, now, parent, g).Ok?
    ensures var pf, pg := MergeDdt(o, key, now, parent, f).value, MergeDdt(o, key, now, parent, g).value;
            && MergeDdt(o, key, now, pf, g).Ok? && MergeDdt(o, key, now, pg, f).Ok? && MergeDdt(o, key, now, pf, f).Ok?
            && SameHolders(MergeDdt(o, key, now, pf, g).value, MergeDdt(o, key, now, pg, f).value)
            && SameHolders(MergeDdt(o, key, now, pf, f).value, pf)
  {
    DdtMergeAccepts(o, key, now, parent, f);
    DdtMergeAccepts(o, key, now, parent, g);
    var valid := HolderTest(o, key, now);
    FragmentsCommute(valid, HolderBefore, parent.holders, f.holders, g.holders);
    assert MergeDdt(o, key, now, parent, f).value.holders ==
           MergeParts(valid, HolderBefore, parent.holders, f.holders).value;
    assert MergeDdt(o, key, now, parent, g).value.holders ==
           MergeParts(valid, HolderBefore, parent.holders, g.holders).value;
  }

  /**
   * Grouping, for a b that is accepted alone: b and then c into a is accepted exactly if the merge of b and c into a
   * is, and then holds the same.
   */
  lemma DdtMergeAssociates(o: Oracle, key: string, now: int, a: Payload, b: Payload, c: Payload)
    requires MergeDdt(o, key, now, a, b).Ok?
    ensures var ab, bc := MergeDdt(o, key, now, a, b), MergeDdt(o, key, now, b, c);
            && (MergeDdt(o, key, now, ab.value, c).Ok? <==> bc.Ok? && MergeDdt(o, key, now, a, bc.value).Ok?)
            && (MergeDdt(o, key, now, ab.value, c).Ok? ==>
                  SameHolders(MergeDdt(o, key, now, ab.value, c).value, MergeDdt(o, key, now, a, bc.value).value))
  {
    var ab := MergeDdt(o, key, now, a, b).value;
    DdtMergeAccepts(o, key, now, a, b);
    DdtMergeAccepts(o, key, now, b, c);
    DdtMergeAccepts(o, key, now, ab, c);
    if MergeDdt(o, key, now, b, c).Ok? {
      GroupsAgree(HolderTest(o, key, now), HolderBefore, a.holders, b.holders, c.holders);
    }
  }

  /** A fragment that is refused alone, for want of a valid holder, gets in once one that has some is merged into it. */
  lemma DdtGroupingMatters(o: Oracle, key: string, now: int, a: Payload, b: Payload, c: Payload)
    requires MergeDdt(o, key, now, b, c).Ok?
    ensures MergeDdt(o, key, now, a, MergeDdt(o, key, now, b, c).value).Ok? <==>
            MergeDdt(o, key, now, a, b).Ok? || (SameDescription(a, b) && c.holders != [])
  {
    DdtMergeAccepts(o, key, now, b, c);
    DdtMergeAccepts(o, key, now, a, b);
    if SameDescription(a, b) {
      GroupsAgree(HolderTest(o, key, now), HolderBefore, a.holders, b.holders, c.holders);
    }
  }

  /** Parent and fragment may be swapped exactly if every invalid holder of either side is on the other side too. */
  lemma DdtSwapsExactlyWhen(o: Oracle, key: string, now: int, a: Payload, b: Payload)
    requires MergeDdt(o, key, now, a, b).Ok? && MergeDdt(o, key, now, b, a).Ok?
    ensures var valid := HolderTest(o, key, now);
            SameHolders(MergeDdt(o, key, now, a, b).value, MergeDdt(o, key, now, b, a).value) <==>
            InvalidShared(valid, a.holders, b.holders) && InvalidShared(valid, b.holders, a.holders)
  {
    DdtMergeAccepts(o, key, now, a, b);
    DdtMergeAccepts(o, key, now, b, a);
    SwapsExactlyWhen(HolderTest(o, key, now), HolderBefore, a.holders, b.holders);
  }

  /** Where the swap fails: an invalid holder that was kept, and a valid one on both sides. */
  lemma DdtSwapFails(o: Oracle, key: string, now: int, a: Payload, b: Payload, x: Holder, y: Holder)
    requires SameDescription(a, b) && a.holders == [x, y] && b.holders == [y]
    requires !HolderIsValid(o, key, now, x) && HolderIsValid(o, key, now, y)
    ensures MergeDdt(o, key, now, a, b).Ok? && MergeDdt(o, key, now, b, a).Ok?
    ensures !SameHolders(MergeDdt(o, key, now, a, b).value, MergeDdt(o, key, now, b, a).value)
  {
    SwapFails(HolderTest(o, key, now), HolderBefore, x, y);
    assert x in MergeDdt(o, key, now, a, b).value.holders;
  }

  // ---------------------------------------------------------------- DTT: a union of entries

  ghost predicate SameDttEntries(a: Payload, b: Payload) {
    a.Dtt? && b.Dtt? && Same(a.entries, b.entries)
  }

  lemma DttMergeAccepts(o: Oracle, key: string, now: int, parent: Payload, fragment: Payload)
    ensures MergeDtt(o, key, now, parent, fragment).Ok? <==>
            BothDtt(parent, fragment) && Accepts(DttTest(o, key, now), fragment.entries)
  {
    if BothDtt(parent, fragment) {
      MergeIsUnion(DttTest(o, key, now), DttBefore, parent.entries, fragment.entries);
    }
  }

  /** An accepted merge is the union of what was kept and what is valid now, under the same description. */
  lemma DttMergeIsUnion(o: Oracle, key: string, now: int, parent: Payload, fragment: Payload)
    requires MergeDtt(o, key, now, parent, fragment).Ok?
    ensures var r := MergeDtt(o, key, now, parent, fragment).value;
            && BothDtt(parent, fragment) && BothDtt(parent, r)
            && IsUnion(DttTest(o, key, now), parent.entries, fragment.entries, r.entries)
  {
    MergeIsUnion(DttTest(o, key, now), DttBefore, parent.entries, fragment.entries);
  }

  /** Two accepted fragments may come in either order, and again, without changing the set of entries. */
  lemma DttFragmentsCommute(o: Oracle, key: string, now: int, parent: Payload, f: Payload, g: Payload)
    requires MergeDtt(o, key, now, parent, f).Ok? && MergeDtt(o, key, now, parent, g).Ok?
    ensures var pf, pg := MergeDtt(o, key, now, parent, f).value, MergeDtt(o, key, now, parent, g).value;
            && MergeDtt(o, key, now, pf, g).Ok? && MergeDtt(o, key, now, pg, f).Ok? && MergeDtt(o, key, now, pf, f).Ok?
            && SameDttEntries(MergeDtt(o, key, now, pf, g).value, MergeDtt(o, key, now, pg, f).value)
            && SameDttEntries(MergeDtt(o, key, now, pf, f).value, pf)
  {
    DttMergeAccepts(o, key, now, parent, f);
    DttMergeAccepts(o, key, now, parent, g);
    var valid := DttTest(o, key, now);
    FragmentsCommute(valid, DttBefore, parent.entries, f.entries, g.entries);
    assert MergeDtt(o, key, now, parent, f).value.entries ==
           MergeParts(valid, DttBefore, parent.entries, f.entries).value;
    assert MergeDtt(o, key, now, parent, g).value.entries ==
           MergeParts(valid, DttBefore, parent.entries, g.entries).value;
  }

  /**
   * Grouping, for a b that is accepted alone: b and then c into a is accepted exactly if the merge of b and c into a
   * is, and then holds the same.
   */
  lemma DttMergeAssociates(o: Oracle, key: string, now: int, a: Payload, b: Payload, c: Payload)
    requires MergeDtt(o, key, now, a, b).Ok?
    ensures var ab, bc := MergeDtt(o, key, now, a, b), MergeDtt(o, key, now, b, c);
            && (MergeDtt(o, key, now, ab.value, c).Ok? <==> bc.Ok? && MergeDtt(o, key, now, a, bc.value).Ok?)
            && (MergeDtt(o, key, now, ab.value, c).Ok? ==>
                  SameDttEntries(MergeDtt(o, key, now, ab.value, c).value, MergeDtt(o, key, now, a, bc.value).value))
  {
    var ab := MergeDtt(o, key, now, a, b).value;
    DttMergeAccepts(o, key, now, a, b);
    DttMergeAccepts(o, key, now, b, c);
    DttMergeAccepts(o, key, now, ab, c);
    if MergeDtt(o, key, now, b, c).Ok? {
      GroupsAgree(DttTest(o, key, now), DttBefore, a.entries, b.entries, c.entries);
    }
  }

  /** A fragment that is refused alone, for want of a valid entry, gets in once one that has some is merged into it. */
  lemma DttGroupingMatters(o: Oracle, key: string, now: int, a: Payload, b: Payload, c: Payload)
    requires MergeDtt(o, key, now, b, c).Ok?
    ensures MergeDtt(o, key, now, a, MergeDtt(o, key, now, b, c).value).Ok? <==>
            MergeDtt(o, key, now, a, b).Ok? || (BothDtt(a, b) && c.entries != [])
  {
    DttMergeAccepts(o, key, now, b, c);
    DttMergeAccepts(o, key, now, a, b);
    if BothDtt(a, b) {
      GroupsAgree(DttTest(o, key, now), DttBefore, a.entries, b.entries, c.entries);
    }
  }

  /** Parent and fragment may be swapped exactly if every invalid entry of either side is on the other side too. */
  lemma DttSwapsExactlyWhen(o: Oracle, key: string, now: int, a: Payload, b: Payload)
    requires MergeDtt(o, key, now, a, b).Ok? && MergeDtt(o, key, now, b, a).Ok?
    ensures var valid := DttTest(o, key, now);
            SameDttEntries(MergeDtt(o, key, now, a, b).value, MergeDtt(o, key, now, b, a).value) <==>
            InvalidShared(valid, a.entries, b.entries) && InvalidShared(valid, b.entries, a.entries)
  {
    DttMergeAccepts(o, key, now, a, b);
    DttMergeAccepts(o, key, now, b, a);
    SwapsExactlyWhen(DttTest(o, key, now), DttBefore, a.entries, b.entries);
  }

  /** Where the swap fails: an invalid entry that was kept, and a valid one on both sides. */
  lemma DttSwapFails(o: Oracle, key: string, now: int, a: Payload, b: Payload, x: DttEntry, y: DttEntry)
    requires BothDtt(a, b) && a.entries == [x, y] && b.entries == [y]
    requires !DttEntryIsValid(o, key, now, x) && DttEntryIsValid(o, key, now, y)
    ensures MergeDtt(o, key, now, a, b).Ok? && MergeDtt(o, key, now, b, a).Ok?
    ensures !SameDttEntries(MergeDtt(o, key, now, a, b).value, MergeDtt(o, key, now, b, a).value)
  {
    SwapFails(DttTest(o, key, now), DttBefore, x, y);
    assert x in MergeDtt(o, key, now, a, b).value.entries;
  }

  // ---------------------------------------------------------------- the latest, and the last

  /**
   * The timestamp a DPT record ends with is the later one, whatever the order; equal or unreadable ones change
   * nothing.
   */
  lemma DptKeepsLatest(o: Oracle, key: string, parent: Payload, f: Payload, g: Payload)
    requires MergeDpt(o, key, parent, f).Ok? && MergeDpt(o, key, parent, g).Ok?
    ensures var pf, pg := MergeDpt(o, key, parent, f).value, MergeDpt(o, key, parent, g).value;
            var pfg, pgf := MergeDpt(o, key, pf, g), MergeDpt(o, key, pg, f);
            && pfg.Ok? && pgf.Ok?
            && pfg.value.lastModified.instant == pgf.value.lastModified.instant
            && MergeDpt(o, key, pf, f) == Ok(pf)
            && !Newer(pfg.value.lastModified, f.lastModified) && !Newer(pfg.value.lastModified, g.lastModified)
            && pfg.value in {parent, f, g}
  {
  }

  /** Grouping does not matter at all: the same payload, accepted exactly if b alone is and the other grouping is. */
  lemma DptMergeAssociates(o: Oracle, key: string, a: Payload, b: Payload, c: Payload)
    ensures var ab, bc := MergeDpt(o, key, a, b), MergeDpt(o, key, b, c);
            && ((ab.Ok? && MergeDpt(o, key, ab.value, c).Ok?) <==>
                (ab.Ok? && bc.Ok? && MergeDpt(o, key, a, bc.value).Ok?))
            && (ab.Ok? && MergeDpt(o, key, ab.value, c).Ok? ==>
                  MergeDpt(o, key, ab.value, c) == MergeDpt(o, key, a, bc.value))
  {
  }

  /** Parent and fragment may be swapped exactly if they are equal or their timestamps are not. */
  lemma DptSwapsExactlyWhen(o: Oracle, key: string, a: Payload, b: Payload)
    requires MergeDpt(o, key, a, b).Ok? && MergeDpt(o, key, b, a).Ok?
    ensures MergeDpt(o, key, a, b) == MergeDpt(o, key, b, a) <==>
            a == b || a.lastModified.instant != b.lastModified.instant
  {
  }

  /** Where the swap fails: another target under the same timestamp. */
  lemma DptSwapFails(o: Oracle, key: string, a: Payload, b: Payload)
    requires a.Dpt? && b.Dpt? && a != b && a.lastModified.instant == b.lastModified.instant
    requires DptIsValid(o, key, a) && DptIsValid(o, key, b)
    requires a.owner == b.owner && a.name == b.name && key == o.hash("dpt|" + o.hash(a.owner) + "|" + a.name)
    ensures MergeDpt(o, key, a, b) == Ok(a) && MergeDpt(o, key, b, a) == Ok(b)
  {
  }

  /** A DPNT merge is its fragment: grouping does not matter, and order does, unless the payloads are equal. */
  lemma DpntKeepsLast(o: Oracle, key: string, a: Payload, b: Payload, c: Payload)
    requires MergeDpnt(o, key, a, b).Ok? && MergeDpnt(o, key, b, c).Ok?
    ensures var ab, bc := MergeDpnt(o, key, a, b).value, MergeDpnt(o, key, b, c).value;
            && MergeDpnt(o, key, ab, c) == MergeDpnt(o, key, a, bc) == Ok(c)
            && MergeDpnt(o, key, ab, b) == Ok(ab)
    ensures MergeDpnt(o, key, b, a).Ok? ==> (MergeDpnt(o, key, a, b) == MergeDpnt(o, key, b, a) <==> a == b)
  {
  }
}
