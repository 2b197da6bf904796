/**
 * What the merges let into a record, said by signatures, proofs of work and expiry alone: exactly the parts that carry
 * all of them, and so nothing that was altered after it was signed.
 */
module DhtSignatures {
  import opened DhtMerge
  import opened DhtRecords
  import opened DhtUnion
  import opened DrtMerge
  import opened Ordering

  /** A signature together with what it is said to be over and by whom. */
  datatype Signed = Signed(statement: Statement, signature: string, signer: string)

  /** Every one of them verifies. */
  ghost predicate AllVerify(o: Oracle, signed: set<Signed>) {
    forall x :: x in signed ==> o.verify(x.statement, x.signature, x.signer)
  }

  ghost predicate Worked(o: Oracle, m: Material, nonce: int) {
    nonce >= 0 && o.proof(m, nonce)
  }

  /** A signature verifies for one statement only. */
  ghost predicate Binding(o: Oracle) {
    forall s, t, signature, signer {:trigger o.verify(s, signature, signer), o.verify(t, signature, signer)} ::
      o.verify(s, signature, signer) && o.verify(t, signature, signer) ==> s == t
  }

  // ---------------------------------------------------------------- DRT

  /** The five signatures of a route entry. */
  ghost function EntrySignatures(o: Oracle, virtualKey: string, e: DrtEntry): set<Signed> {
    var virtual := EntryPointVirtual(e.finalPath, o.hash(e.physicalKey));
    var physical := EntryPointPhysical(o.hash(virtualKey), e.finalPath, e.virtualSignature);
    {Signed(virtual, e.virtualSignature, virtualKey), Signed(virtual, e.entryVirtualSignature, virtualKey),
     Signed(physical, e.physicalSignature, e.physicalKey), Signed(physical, e.entryPhysicalSignature, e.physicalKey),
     Signed(RouteRtt(e.physicalKey, e.expires.text, e.rtt), e.rttSignature, e.physicalKey)}
  }

  /** An entry of the virtual node's record that is signed throughout, worked for and not expired. */
  ghost predicate EntryIsSound(o: Oracle, key: string, virtualKey: string, now: int, e: DrtEntry) {
    && AllVerify(o, EntrySignatures(o, virtualKey, e))
    && "" !in {virtualKey, e.virtualSignature, e.entryVirtualSignature, e.physicalSignature, e.entryPhysicalSignature,
               e.rttSignature}
    && e.virtualSignature == e.entryVirtualSignature
    && Worked(o, DrtMaterial(key, o.hash(virtualKey), e.(powNonce := 0)), e.powNonce)
    && e.expires.instant.Some? && now < e.expires.instant.value
  }

  lemma SoundIsLive(o: Oracle, key: string, virtualKey: string, now: int, entries: seq<DrtEntry>, e: DrtEntry)
    ensures e in Live(Site(o, key, virtualKey), now, entries) <==>
            e in entries && EntryIsSound(o, key, virtualKey, now, e)
  {
  }

  /** What a merge of route entries is for: its record, its key, and something sound in the fragment, unless empty. */
  lemma DrtAcceptedExactlyWhen(o: Oracle, key: string, now: int, parent: Payload, fragment: Payload)
    ensures MergeDrt(o, key, now, parent, fragment).Ok? <==>
            && parent.Drt? && fragment.Drt? && parent.virtualKey == fragment.virtualKey
            && key == o.hash("drt|" + o.hash(fragment.virtualKey))
            && (fragment.routes == [] ||
                exists e :: e in fragment.routes && EntryIsSound(o, key, fragment.virtualKey, now, e))
  {
    if parent.Drt? && fragment.Drt? {
      var live := Live(Site(o, key, parent.virtualKey), now, fragment.routes);
      if live != [] {
        assert live[0] in live;
        SoundIsLive(o, key, parent.virtualKey, now, fragment.routes, live[0]);
      }
      if e :| e in fragment.routes && EntryIsSound(o, key, parent.virtualKey, now, e) {
        SoundIsLive(o, key, parent.virtualKey, now, fragment.routes, e);
      }
    }
  }

  /**
   * A merged record holds sound entries of either side only, and for every sound entry of either side one for the same
   * path that it does not surpass.
   */
  lemma DrtHoldsTheSound(o: Oracle, key: string, now: int, parent: Payload, fragment: Payload, e: DrtEntry)
    requires MergeDrt(o, key, now, parent, fragment).Ok?
    ensures var r := MergeDrt(o, key, now, parent, fragment).value;
            && r.Drt? && r.virtualKey == parent.virtualKey && r.lastUpdate == now
            && (e in r.routes ==>
                  && e in parent.routes + fragment.routes && EntryIsSound(o, key, parent.virtualKey, now, e)
                  && forall k :: k in r.routes && k.finalPath == e.finalPath ==> k == e)
            && (e in parent.routes + fragment.routes && EntryIsSound(o, key, parent.virtualKey, now, e) ==>
                  exists k :: k in r.routes && k.finalPath == e.finalPath && IsAsGood(k, e))
            && forall i, j :: 0 <= i < j < |r.routes| ==> Less(r.routes[i].finalPath, r.routes[j].finalPath)
  {
    UniquesSort(Live(Site(o, key, parent.virtualKey), now, parent.routes)
                + Live(Site(o, key, parent.virtualKey), now, fragment.routes));
    var at := Site(o, key, parent.virtualKey);
    var both := Live(at, now, parent.routes) + Live(at, now, fragment.routes);
    SoundIsLive(o, key, parent.virtualKey, now, parent.routes, e);
    SoundIsLive(o, key, parent.virtualKey, now, fragment.routes, e);
    LiveIsTimed(at, now, parent.routes);
    LiveIsTimed(at, now, fragment.routes);
    DeduplicateCovers(both);
    if e in parent.routes + fragment.routes && EntryIsSound(o, key, parent.virtualKey, now, e) {
      assert Covered(e, Deduplicate(both));
      var k :| k in Deduplicate(both) && k.finalPath == e.finalPath && !Better(e, k);
      assert IsAsGood(k, e);
    }
  }

  /** It expires later, or is faster under the same expiry, or comes first or equal by key under the same of both. */
  ghost predicate IsAsGood(k: DrtEntry, e: DrtEntry) {
    && k.expires.instant.Some? && e.expires.instant.Some?
    && var x, y := k.expires.instant.value, e.expires.instant.value;
    x > y || (x == y && (k.rtt < e.rtt || (k.rtt == e.rtt && !Less(e.physicalKey, k.physicalKey))))
  }

  lemma {:induction false} LiveOfBoth(at: Site, now: int, a: seq<DrtEntry>, b: seq<DrtEntry>)
    ensures Live(at, now, a + b) == Live(at, now, a) + Live(at, now, b)
  {
    if b == [] {
      assert a + b == a;
    } else {
      assert (a + b)[..|a + b| - 1] == a + b[..|b| - 1];
      LiveOfBoth(at, now, a, b[..|b| - 1]);
    }
  }

  /** An entry with a signature that does not verify, or without work, or expired, is as good as not there. */
  lemma UnsoundIsNotThere(o: Oracle, key: string, now: int, parent: Payload, fragment: Payload, before: seq<DrtEntry>,
                          e: DrtEntry, after: seq<DrtEntry>)
    requires parent.Drt? && fragment.Drt? && !EntryIsSound(o, key, parent.virtualKey, now, e)
    requires before + after != []
    ensures MergeDrt(o, key, now, parent, fragment.(routes := before + [e] + after)) ==
            MergeDrt(o, key, now, parent, fragment.(routes := before + after))
    ensures MergeDrt(o, key, now, parent.(routes := before + [e] + after), fragment) ==
            MergeDrt(o, key, now, parent.(routes := before + after), fragment)
  {
    var at := Site(o, key, parent.virtualKey);
    SoundIsLive(o, key, parent.virtualKey, now, [e], e);
    assert Live(at, now, [e]) == [] by {
      NoneIsLive(at, now, [e]);
    }
    LiveOfBoth(at, now, before, after);
    LiveOfBoth(at, now, before + [e], after);
    LiveOfBoth(at, now, before, [e]);
  }

  /** An entry that was altered in its path, its expiry or its round trip and has not been signed anew is not sound. */
  lemma AlteredEntryIsUnsound(o: Oracle, key: string, virtualKey: string, now: int, later: int, e: DrtEntry,
                              altered: DrtEntry)
    requires Binding(o) && EntryIsSound(o, key, virtualKey, now, e)
    requires altered.physicalKey == e.physicalKey && altered.virtualSignature == e.virtualSignature
    requires altered.rttSignature == e.rttSignature
    requires altered.finalPath != e.finalPath || altered.expires.text != e.expires.text || altered.rtt != e.rtt
    ensures !EntryIsSound(o, key, virtualKey, later, altered)
  {
    var virtual := Signed(EntryPointVirtual(e.finalPath, o.hash(e.physicalKey)), e.virtualSignature, virtualKey);
    var timed := Signed(RouteRtt(e.physicalKey, e.expires.text, e.rtt), e.rttSignature, e.physicalKey);
    assert virtual in EntrySignatures(o, virtualKey, e) && timed in EntrySignatures(o, virtualKey, e);
    var other := EntryPointVirtual(altered.finalPath, o.hash(e.physicalKey));
    var trip := RouteRtt(e.physicalKey, altered.expires.text, altered.rtt);
    assert Signed(other, e.virtualSignature, virtualKey) in EntrySignatures(o, virtualKey, altered);
    assert Signed(trip, e.rttSignature, e.physicalKey) in EntrySignatures(o, virtualKey, altered);
    assert other != virtual.statement || trip != timed.statement;
  }

  // ---------------------------------------------------------------- DDT and DTT

  ghost predicate HolderIsSound(o: Oracle, key: string, now: int, h: Holder) {
    && o.verify(OfHolder(key, h.virtualKey, h.expires.text), h.signature, h.virtualKey)
    && Worked(o, HolderMaterial(key, h.(powNonce := 0)), h.powNonce)
    && h.expires.instant.Some? && now < h.expires.instant.value
  }

  ghost predicate DttEntryIsSound(o: Oracle, key: string, now: int, e: DttEntry) {
    && o.verify(OfDttEntry(key, e.resource, e.virtualKey, e.created, e.expires.text), e.signature, e.virtualKey)
    && Worked(o, DttMaterial(key, e.(powNonce := 0)), e.powNonce)
    && e.expires.instant.Some? && now < e.expires.instant.value
  }

  /** Exactly when a DDT fragment is accepted, and what the record then holds. */
  lemma DdtHoldsTheSound(o: Oracle, key: string, now: int, parent: Payload, fragment: Payload, h: Holder)
    ensures MergeDdt(o, key, now, parent, fragment).Ok? <==>
            && SameDescription(parent, fragment)
            && (fragment.holders == [] || exists x :: x in fragment.holders && HolderIsSound(o, key, now, x))
    ensures var r := MergeDdt(o, key, now, parent, fragment);
            r.Ok? ==>
              && SameDescription(parent, r.value)
              && SortedBy(r.value.holders, HolderBefore) && multiset(r.value.holders)[h] <= 1
              && (h in r.value.holders <==>
                  h in parent.holders || (h in fragment.holders && HolderIsSound(o, key, now, h)))
  {
    forall x ensures HolderTest(o, key, now)(x) <==> HolderIsSound(o, key, now, x) {
    }
    DdtMergeAccepts(o, key, now, parent, fragment);
    if MergeDdt(o, key, now, parent, fragment).Ok? {
      DdtMergeIsUnion(o, key, now, parent, fragment);
      HoldersAreOrdered();
      MergeIsSorted(HolderTest(o, key, now), HolderBefore, parent.holders, fragment.holders);
    }
  }

  lemma DttHoldsTheSound(o: Oracle, key: string, now: int, parent: Payload, fragment: Payload, e: DttEntry)
    ensures MergeDtt(o, key, now, parent, fragment).Ok? <==>
            && parent.Dtt? && fragment.Dtt?
            && (fragment.entries == [] || exists x :: x in fragment.entries && DttEntryIsSound(o, key, now, x))
    ensures var r := MergeDtt(o, key, now, parent, fragment);
            r.Ok? ==>
              && r.value.Dtt?
              && SortedBy(r.value.entries, DttBefore) && multiset(r.value.entries)[e] <= 1
              && (e in r.value.entries <==>
                  e in parent.entries || (e in fragment.entries && DttEntryIsSound(o, key, now, e)))
  {
    forall x ensures DttTest(o, key, now)(x) <==> DttEntryIsSound(o, key, now, x) {
    }
    DttMergeAccepts(o, key, now, parent, fragment);
    if MergeDtt(o, key, now, parent, fragment).Ok? {
      DttMergeIsUnion(o, key, now, parent, fragment);
      DttEntriesAreOrdered();
      MergeIsSorted(DttTest(o, key, now), DttBefore, parent.entries, fragment.entries);
    }
  }

  /** A holder's signature is good for one key and one expiry. */
  lemma AlteredHolderIsUnsound(o: Oracle, key: string, other: string, now: int, later: int, h: Holder, altered: Holder)
    requires Binding(o) && HolderIsSound(o, key, now, h)
    requires altered.virtualKey == h.virtualKey && altered.signature == h.signature
    requires other != key || altered.expires.text != h.expires.text
    ensures !HolderIsSound(o, other, later, altered)
  {
    assert OfHolder(key, h.virtualKey, h.expires.text) != OfHolder(other, h.virtualKey, altered.expires.text);
  }

  lemma AlteredDttEntryIsUnsound(o: Oracle, key: string, other: string, now: int, later: int, e: DttEntry,
                                 altered: DttEntry)
    requires Binding(o) && DttEntryIsSound(o, key, now, e)
    requires altered.virtualKey == e.virtualKey && altered.signature == e.signature
    requires other != key || (altered.resource, altered.created, altered.expires.text) !=
                             (e.resource, e.created, e.expires.text)
    ensures !DttEntryIsSound(o, other, later, altered)
  {
    assert OfDttEntry(key, e.resource, e.virtualKey, e.created, e.expires.text) !=
           OfDttEntry(other, altered.resource, e.virtualKey, altered.created, altered.expires.text);
  }

  // ---------------------------------------------------------------- DPT and DPNT

  /** Exactly when a DPT fragment is accepted, and that the later of the two is kept. */
  lemma DptAcceptedExactlyWhen(o: Oracle, key: string, parent: Payload, f: Payload)
    ensures MergeDpt(o, key, parent, f).Ok? <==>
            && parent.Dpt? && f.Dpt?
            && key == o.hash("dpt|" + o.hash(f.owner) + "|" + f.name)
            && o.verify(OfDpt(key, f.owner, f.name, f.content, f.lastModified.text, f.target), f.mark, f.owner)
            && Worked(o, RecordMaterial(key, f.(nonce := 0)), f.nonce)
    ensures var r := MergeDpt(o, key, parent, f);
            r.Ok? ==>
              if f.lastModified.instant.Some? && (parent.lastModified.instant.None? ||
                                                  parent.lastModified.instant.value < f.lastModified.instant.value)
              then r.value == f else r.value == parent
  {
    assert f.Dpt? ==> f.(nonce := 0) == Dpt(f.owner, f.name, f.content, f.lastModified, f.target, f.mark, 0);
  }

  lemma DpntAcceptedExactlyWhen(o: Oracle, key: string, parent: Payload, f: Payload)
    ensures MergeDpnt(o, key, parent, f).Ok? <==>
            && parent.Dpnt? && f.Dpnt?
            && key == o.hash("dpnt|" + o.hash(f.physicalKey))
            && o.verify(OfDpnt(key, f.physicalKey, f.description), f.signature, f.physicalKey)
            && Worked(o, RecordMaterial(key, f.(powNonce := 0)), f.powNonce)
    ensures MergeDpnt(o, key, parent, f).Ok? ==> MergeDpnt(o, key, parent, f).value == f
  {
    assert f.Dpnt? ==> f.(powNonce := 0) == Dpnt(f.physicalKey, f.description, f.signature, 0);
  }

  /** Whatever is altered in an accepted record, other than its nonce, needs a new signature. */
  lemma AlteredDptIsRefused(o: Oracle, key: string, other: string, parent: Payload, f: Payload, altered: Payload)
    requires Binding(o) && MergeDpt(o, key, parent, f).Ok?
    requires altered.Dpt? && altered.owner == f.owner && altered.mark == f.mark
    requires other != key || (altered.name, altered.content, altered.lastModified.text, altered.target) !=
                             (f.name, f.content, f.lastModified.text, f.target)
    ensures MergeDpt(o, other, parent, altered).Err?
  {
    assert OfDpt(key, f.owner, f.name, f.content, f.lastModified.text, f.target) !=
           OfDpt(other, f.owner, altered.name, altered.content, altered.lastModified.text, altered.target);
  }

  lemma AlteredDpntIsRefused(o: Oracle, key: string, other: string, parent: Payload, f: Payload, altered: Payload)
    requires Binding(o) && MergeDpnt(o, key, parent, f).Ok?
    requires altered.Dpnt? && altered.physicalKey == f.physicalKey && altered.signature == f.signature
    requires other != key || altered.description != f.description
    ensures MergeDpnt(o, other, parent, altered).Err?
  {
    assert OfDpnt(key, f.physicalKey, f.description) != OfDpnt(other, f.physicalKey, altered.description);
  }
}
