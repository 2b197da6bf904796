/** The record payloads of the five DHT namespaces and the validity of their parts at a clock reading. */
module DhtRecords {
  import opened Ordering
  import opened Wrappers

  /** A timestamp as text together with the instant it parses to, if it parses. */
  datatype Timestamp = Timestamp(text: string, instant: Option<int>)

  datatype DrtEntry = DrtEntry(
    physicalKey: string, virtualSignature: string, finalPath: string, entryVirtualSignature: string,
    entryPhysicalSignature: string, physicalSignature: string, expires: Timestamp, rtt: int, rttSignature: string,
        powNonce: int)

  datatype Holder = Holder(virtualKey: string, expires: Timestamp, signature: string, powNonce: int)

  datatype DttEntry = DttEntry(resource: string, virtualKey: string, created: string, expires: Timestamp,
      signature: string, powNonce: int)

  datatype Payload =
    | Dpnt(physicalKey: string, description: string, signature: string, powNonce: int)
    | Drt(virtualKey: string, routes: seq<DrtEntry>, lastUpdate: int)
    | Ddt(title: string, kind: string, tags: seq<string>, holders: seq<Holder>)
    | Dtt(entries: seq<DttEntry>)
    | Dpt(owner: string, name: string, content: string, lastModified: Timestamp, target: string, mark: string,
        nonce: int)

  datatype Namespace = DpntTable | DrtTable | DdtTable | DttTable | DptTable | OtherTable

  function NamespaceOf(table: string): Namespace {
    match Lower(table)
    case "dpnt" => DpntTable
    case "drt" => DrtTable
    case "ddt" => DdtTable
    case "dtt" => DttTable
    case "dpt" => DptTable
    case _ => OtherTable
  }

  /** The five names, in any spelling, and nothing else. */
  lemma NamesAreExact(table: string)
    ensures NamespaceOf(table) == NamespaceOf(Lower(table))
    ensures NamespaceOf(table) == OtherTable <==> Lower(table) !in {"dpnt", "drt", "ddt", "dtt", "dpt"}
    ensures Lower(table) == "dpnt" <==> NamespaceOf(table) == DpntTable
    ensures Lower(table) == "drt" <==> NamespaceOf(table) == DrtTable
    ensures Lower(table) == "ddt" <==> NamespaceOf(table) == DdtTable
    ensures Lower(table) == "dtt" <==> NamespaceOf(table) == DttTable
    ensures Lower(table) == "dpt" <==> NamespaceOf(table) == DptTable
  {
    LowerExactly(table);
  }

  /** What a signature is over. */
  datatype Statement =
    | EntryPointVirtual(finalPath: string, finalNode: string)
    | EntryPointPhysical(virtualNode: string, finalPath: string, virtualSignature: string)
    | RouteRtt(physicalKey: string, expires: string, rtt: int)
    | OfHolder(key: string, virtualKey: string, expires: string)
    | OfDttEntry(key: string, resource: string, virtualKey: string, created: string, expires: string)
    | OfDpnt(key: string, physicalKey: string, description: string)
    | OfDpt(key: string, owner: string, name: string, content: string, lastModified: string, target: string)

  /** What is hashed with a nonce for the proof of work: the record part without its own nonce. */
  datatype Material =
    | DrtMaterial(key: string, virtualNode: string, entry: DrtEntry)
    | HolderMaterial(key: string, holder: Holder)
    | DttMaterial(key: string, dttEntry: DttEntry)
    | RecordMaterial(key: string, payload: Payload)

  /** SHA-512, ML-DSA verification and the proof-of-work test, none of which depends on the clock. */
  datatype Oracle = Oracle(
    hash: string -> string,
    verify: (Statement, string, string) -> bool,
    proof: (Material, int) -> bool)

  predicate Expired(t: Timestamp, now: int) {
    t.instant.None? || t.instant.value <= now
  }

  /**
   * Everything `_is_valid_drt_route_entry` checks apart from the expiry. Without a virtual key there is nothing to
   * prove work on.
   */
  predicate DrtEntryIsGenuine(o: Oracle, key: string, virtualKey: string, e: DrtEntry) {
    var node := o.hash(e.physicalKey);
    var virtualNode := o.hash(virtualKey);
    && virtualKey != "" && e.virtualSignature != "" && e.entryVirtualSignature != "" && e.entryPhysicalSignature != ""
    && e.physicalSignature != "" && e.rttSignature != ""
    && e.powNonce >= 0 && o.proof(DrtMaterial(key, virtualNode, e.(powNonce := 0)), e.powNonce)
    && o.verify(EntryPointVirtual(e.finalPath, node), e.virtualSignature, virtualKey)
    && o.verify(EntryPointVirtual(e.finalPath, node), e.entryVirtualSignature, virtualKey)
    && e.entryVirtualSignature == e.virtualSignature
    && o.verify(EntryPointPhysical(virtualNode, e.finalPath, e.virtualSignature), e.physicalSignature, e.physicalKey)
    && o.verify(EntryPointPhysical(virtualNode, e.finalPath, e.virtualSignature), e.entryPhysicalSignature,
        e.physicalKey)
    && o.verify(RouteRtt(e.physicalKey, e.expires.text, e.rtt), e.rttSignature, e.physicalKey)
  }

  predicate DrtEntryIsValid(o: Oracle, key: string, virtualKey: string, now: int, e: DrtEntry) {
    !Expired(e.expires, now) && DrtEntryIsGenuine(o, key, virtualKey, e)
  }

  predicate HolderIsValid(o: Oracle, key: string, now: int, h: Holder) {
    && !Expired(h.expires, now)
    && h.powNonce >= 0 && o.proof(HolderMaterial(key, h.(powNonce := 0)), h.powNonce)
    && o.verify(OfHolder(key, h.virtualKey, h.expires.text), h.signature, h.virtualKey)
  }

  predicate DttEntryIsValid(o: Oracle, key: string, now: int, e: DttEntry) {
    && !Expired(e.expires, now)
    && e.powNonce >= 0 && o.proof(DttMaterial(key, e.(powNonce := 0)), e.powNonce)
    && o.verify(OfDttEntry(key, e.resource, e.virtualKey, e.created, e.expires.text), e.signature, e.virtualKey)
  }

  predicate DpntIsValid(o: Oracle, key: string, p: Payload)
    requires p.Dpnt?
  {
    && p.powNonce >= 0 && o.proof(RecordMaterial(key, Dpnt(p.physicalKey, p.description, p.signature, 0)), p.powNonce)
    && o.verify(OfDpnt(key, p.physicalKey, p.description), p.signature, p.physicalKey)
  }

  predicate DptIsValid(o: Oracle, key: string, p: Payload)
    requires p.Dpt?
  {
    && p.nonce >= 0 && o.proof(RecordMaterial(key, Dpt(p.owner, p.name, p.content, p.lastModified, p.target, p.mark,
        0)), p.nonce)
    && o.verify(OfDpt(key, p.owner, p.name, p.content, p.lastModified.text, p.target), p.mark, p.owner)
  }
}
