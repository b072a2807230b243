/**
 * A signer for every zone, and with it the inputs on which plain NSEC answers go wrong
 * (rust/crates/hns-dnssec/src/lib.rs): records expanded from a wildcard, and a name error with an
 * encloser that is too short.
 */
module NsecWitness {
  import opened Prelude
  import opened WireName
  import opened WireMessage
  import opened NameText
  import opened CircularOrder
  import opened Rdata
  import opened SignedData
  import opened Signatures
  import opened Nsec3
  import opened Nsec
  import opened NsecEncloser
  import opened NsecSigned
  import Nsec3Soundness

  // ---------------------------------------------------------------- records as a signer writes them

  const ALGORITHM: byte := 8
  const KEY_RDATA: seq<byte> := [1, 0, 3, 8, 0]

  function RrsigRdata(code: u16, labels: byte, ttl: u32, expiration: u32, inception: u32, tag: u16, signer: DnsName): seq<byte>
    requires Encodable(signer)
  {
    U16Bytes(code) + ([ALGORITHM, labels] + (U32Bytes(ttl) + (U32Bytes(expiration) + (U32Bytes(inception)
    + (U16Bytes(tag) + (Wire(signer) + [0]))))))
  }

  lemma RrsigFields(rdata: seq<byte>, code: u16, labels: byte, ttl: u32, expiration: u32, inception: u32, tag: u16, tail: seq<byte>)
    requires rdata == U16Bytes(code) + ([ALGORITHM, labels] + (U32Bytes(ttl) + (U32Bytes(expiration) + (U32Bytes(inception)
      + (U16Bytes(tag) + tail)))))
    ensures |rdata| == 18 + |tail| && At(rdata, 18, tail) && rdata[2] == ALGORITHM && rdata[3] == labels
    ensures ReadU16(rdata, 0) == code && ReadU32(rdata, 4) == ttl && ReadU32(rdata, 8) == expiration
    ensures ReadU32(rdata, 12) == inception && ReadU16(rdata, 16) == tag
  {
    hide U16Bytes, U32Bytes, ReadU16, ReadU32;
    assert rdata[0..2] == U16Bytes(code) && rdata[4..8] == U32Bytes(ttl) && rdata[8..12] == U32Bytes(expiration);
    assert rdata[12..16] == U32Bytes(inception) && rdata[16..18] == U16Bytes(tag) && rdata[18..] == tail;
    ReadU16Inverts(rdata, 0, code);
    ReadU32Inverts(rdata, 4, ttl);
    ReadU32Inverts(rdata, 8, expiration);
    ReadU32Inverts(rdata, 12, inception);
    ReadU16Inverts(rdata, 16, tag);
  }

  lemma RrsigReads(code: u16, labels: byte, ttl: u32, expiration: u32, inception: u32, tag: u16, signer: DnsName)
    requires WellFormed(signer) && Encodable(signer)
    ensures var rdata := RrsigRdata(code, labels, ttl, expiration, inception, tag, signer);
      ParseRrsig(rdata) == Ok(RrsigRecord(RecordType.FromCode(code), ALGORITHM, labels, ttl, expiration, inception, tag,
                                          signer, [0], rdata[..|rdata| - 1]))
  {
    hide U16Bytes, U32Bytes, ReadU16, ReadU32, WellFormed, Wire, ParseName, At, RecordType.FromCode;
    var rdata := RrsigRdata(code, labels, ttl, expiration, inception, tag, signer);
    var wire := Wire(signer);
    RrsigFields(rdata, code, labels, ttl, expiration, inception, tag, wire + [0]);
    AtConcat(rdata, 18, wire, [0]);
    NameAt(rdata, 18, signer);
    LastOctet(rdata, wire);
  }

  lemma LastOctet(rdata: seq<byte>, wire: seq<byte>)
    requires |rdata| == 18 + |wire| + 1 && At(rdata, 18, wire) && At(rdata, 18 + |wire|, [0])
    ensures rdata[18 + |wire|..] == [0] && rdata[..18] + wire == rdata[..|rdata| - 1]
  {
  }

  function NsecRdata(next: DnsName, maps: seq<byte>): seq<byte>
    requires Encodable(next)
  {
    Wire(next) + maps
  }

  predicate UsableMaps(maps: seq<byte>) {
    0 < |maps| <= 0x8000 && ValidBitmaps(maps, None)
  }

  lemma NsecReads(next: DnsName, maps: seq<byte>)
    requires WellFormed(next) && Encodable(next) && UsableMaps(maps)
    ensures var rdata := NsecRdata(next, maps);
      ParseNsec(rdata) == Ok(NsecRecord(next, maps)) && CanonicalNsec(rdata) == Ok(rdata) && |rdata| <= 0xffff
  {
    hide WellFormed, Wire, ParseName, ValidBitmaps, At;
    var rdata := NsecRdata(next, maps);
    AtWhole(rdata);
    AtConcat(rdata, 0, Wire(next), maps);
    NameAt(rdata, 0, next);
    WireIsShort(next);
  }

  lemma WireIsShort(name: DnsName)
    requires WellFormed(name) && Encodable(name)
    ensures |Wire(name)| <= 255
  {
    hide LabelsSize;
    WireSize(name);
  }

  // ---------------------------------------------------------------- the signer

  /** Whatever the zone signed holds, nothing else does. */
  ghost function ZoneSigner(z: Zone): Context {
    Context(Crypto((s: seq<byte>) => s, (a: byte, k: seq<byte>, s: seq<byte>) => None,
                   (a: byte, k: seq<byte>, d: seq<byte>, s: seq<byte>) => SignedByZone(z, d)),
            z.apex, [ResourceRecord(z.apex, Dnskey, 1, 0, KEY_RDATA)], 0)
  }

  lemma ZoneSignerIsUnforgeable(z: Zone)
    ensures Unforgeable(ZoneSigner(z), z)
  {
    hide SignedByZone, ParseDnskeys;
  }

  const EXPIRATION: u32 := 0xffff_ffff

  /** The RRSIG of the zone over an NSEC record with so many labels. */
  function SignerRrsigRdata(labels: byte, signer: DnsName): seq<byte>
    requires Encodable(signer)
  {
    RrsigRdata(RecordType.Nsec.Code(), labels, 0, EXPIRATION, 0, KeyTag(KEY_RDATA), signer)
  }

  function SignerRrsig(labels: byte, signer: DnsName): RrsigRecord
    requires Encodable(signer)
  {
    var rdata := SignerRrsigRdata(labels, signer);
    RrsigRecord(RecordType.Nsec, ALGORITHM, labels, 0, EXPIRATION, 0, KeyTag(KEY_RDATA), signer, [0], rdata[..|rdata| - 1])
  }

  /** One NSEC record with its RRSIG, both under the given name. */
  function SetAt(name: DnsName, next: DnsName, maps: seq<byte>, labels: byte, signer: DnsName): SignedSet
    requires Encodable(next) && Encodable(signer)
  {
    SignedSet([ResourceRecord(name, RecordType.Nsec, 1, 0, NsecRdata(next, maps))],
              [ResourceRecord(name, Rrsig, 1, 0, SignerRrsigRdata(labels, signer))])
  }

  lemma SignerRrsigReads(labels: byte, signer: DnsName)
    requires WellFormed(signer) && Encodable(signer)
    ensures ParseRrsig(SignerRrsigRdata(labels, signer)) == Ok(SignerRrsig(labels, signer))
    ensures WellFormedRrsig(SignerRrsig(labels, signer))
  {
    hide RrsigRdata, KeyTag, WellFormed, Wire, ParseRrsig, WellFormedRrsig;
    assert RecordType.FromCode(RecordType.Nsec.Code()) == RecordType.Nsec;
    RrsigReads(RecordType.Nsec.Code(), labels, 0, EXPIRATION, 0, KeyTag(KEY_RDATA), signer);
    ParsedRrsigIsWellFormed(SignerRrsigRdata(labels, signer));
  }

  /** The signed bytes of one record follow from its signed owner and its canonical RDATA. */
  lemma OneRecordCovered(r: ResourceRecord, rrsig: RrsigRecord, owner: DnsName)
    requires r.rtype == rrsig.typeCovered == RecordType.Nsec && rrsig.labels as nat <= |r.name|
    requires OwnerName(r.name, rrsig.labels) == owner && Encodable(owner)
    requires CanonicalNsec(r.rdata) == Ok(r.rdata) && |r.rdata| <= 0xffff
    ensures CoveredBy([r], rrsig) == Ok(Covered(Wire(owner), r.class_, [r.rdata]))
  {
    hide OwnerName, CanonicalNsec, Wire;
    assert [r][..0] == [];
    var wire := CanonicalOwner(r.name, rrsig.labels).value;
    assert wire == Wire(owner);
    assert MemberRdata(r.rtype, r.class_, wire, rrsig.labels, r) == Ok(r.rdata);
    assert MemberRdatas(r.rtype, r.class_, wire, rrsig.labels, []) == Ok([]);
    assert MemberRdatas(r.rtype, r.class_, wire, rrsig.labels, [r]) == Ok([] + [r.rdata]);
    assert [] + [r.rdata] == [r.rdata] && [r.rdata][1..] == [];
    assert Sort([r.rdata]) == Insert(r.rdata, Sort([])) == [r.rdata];
  }

  lemma SameCoveredSameBytes(a: seq<ResourceRecord>, b: seq<ResourceRecord>, rrsig: RrsigRecord, now: nat)
    requires CoveredBy(a, rrsig).Ok? && CoveredBy(a, rrsig) == CoveredBy(b, rrsig) && ValidAt(rrsig, now)
    ensures SignedBytes(a, rrsig, now).Ok? && SignedBytes(a, rrsig, now) == SignedBytes(b, rrsig, now)
  {
    hide CoveredBy, Body;
    CoveredIsShort(a, rrsig);
    CoveredIsShort(b, rrsig);
  }

  lemma OneKeyReads(r: ResourceRecord, key: DnskeyRecord)
    requires r.rtype == Dnskey && ParseDnskey(r.rdata) == Ok(key)
    ensures ParseDnskeys([r]) == Ok([key])
  {
    hide ParseDnskey;
    assert [r][1..] == [] && ParseDnskeys([]) == Ok([]);
    assert [key] + [] == [key];
  }

  lemma KeyReads(z: Zone)
    ensures ParseDnskeys(ZoneSigner(z).dnskeys) == Ok([DnskeyRecord(0x100, ALGORITHM, [0], KEY_RDATA)])
  {
    assert KEY_RDATA[..2] == U16Bytes(0x100) by { assert U16Bytes(0x100) == [1, 0]; }
    assert KEY_RDATA[0..2] == KEY_RDATA[..2];
    ReadU16Inverts(KEY_RDATA, 0, 0x100);
    assert KEY_RDATA[4..] == [0];
    assert ParseDnskey(KEY_RDATA) == Ok(DnskeyRecord(0x100, ALGORITHM, [0], KEY_RDATA));
    OneKeyReads(ZoneSigner(z).dnskeys[0], DnskeyRecord(0x100, ALGORITHM, [0], KEY_RDATA));
  }

  /** What the zone's signer has to find: the entry's owner is the signed owner of the given name. */
  ghost predicate CanStandAt(z: Zone, i: nat, name: DnsName) {
    && ValidZone(z) && i < |z.chain| && UsableMaps(z.chain[i].maps) && WellFormed(name)
    && SignedLabels(z.chain[i].owner) <= |name| && OwnerName(name, SignedLabels(z.chain[i].owner)) == z.chain[i].owner
  }

  lemma {:induction false} LabelsBound(name: DnsName)
    requires forall k | 0 <= k < |name| :: 0 < |name[k]|
    ensures 2 * |name| <= LabelsSize(name)
  {
    if name != [] {
      LabelsBound(name[..|name| - 1]);
    }
  }

  lemma LabelsFit(name: DnsName)
    requires WellFormed(name)
    ensures SignedLabels(name) < 0x100 && Encodable(name)
  {
    LabelsBound(name);
    WellFormedIsEncodable(name);
  }

  /** The names that entry i needs are names that can be written. */
  lemma EntryNames(z: Zone, i: nat)
    requires ValidZone(z) && i < |z.chain|
    ensures WellFormed(z.chain[i].owner) && Encodable(z.chain[i].owner) && SignedLabels(z.chain[i].owner) < 0x100
    ensures WellFormed(NextOwner(Owners(z), i)) && Encodable(NextOwner(Owners(z), i))
    ensures WellFormed(z.apex) && Encodable(z.apex)
  {
    hide WellFormed;
    assert Owners(z)[i] == z.chain[i].owner;
    LabelsFit(z.chain[i].owner);
    LabelsFit(NextOwner(Owners(z), i));
    Nsec3Soundness.SuffixIsWellFormed(z.chain[i].owner, z.apex);
    LabelsFit(z.apex);
  }

  /** The record and signature of entry i, presented at a name. */
  ghost function Presented(z: Zone, i: nat, name: DnsName): SignedSet
    requires ValidZone(z) && i < |z.chain|
  {
    EntryNames(z, i);
    SetAt(name, NextOwner(Owners(z), i), z.chain[i].maps, SignedLabels(z.chain[i].owner), z.apex)
  }

  ghost function EntryRrsig(z: Zone, i: nat): RrsigRecord
    requires ValidZone(z) && i < |z.chain|
  {
    EntryNames(z, i);
    SignerRrsig(SignedLabels(z.chain[i].owner), z.apex)
  }

  /** The presented record is one record of the entry's data, under the given name. */
  lemma PresentedRecord(z: Zone, i: nat, name: DnsName) returns (r: ResourceRecord)
    requires ValidZone(z) && i < |z.chain| && UsableMaps(z.chain[i].maps)
    ensures Presented(z, i, name).records == [r] && r.name == name && r.rtype == RecordType.Nsec && r.class_ == 1
    ensures ParseNsec(r.rdata) == Ok(NsecRecord(NextOwner(Owners(z), i), z.chain[i].maps))
    ensures CanonicalNsec(r.rdata) == Ok(r.rdata) && |r.rdata| <= 0xffff
    ensures r.rdata == Presented(z, i, z.chain[i].owner).records[0].rdata
  {
    EntryNames(z, i);
    hide WellFormed, Wire, ParseNsec, CanonicalNsec, ValidZone, SignedLabels, SignerRrsigRdata;
    NsecReads(NextOwner(Owners(z), i), z.chain[i].maps);
    r := Presented(z, i, name).records[0];
  }

  lemma EntryRrsigIs(z: Zone, i: nat) returns (rrsig: RrsigRecord)
    requires ValidZone(z) && i < |z.chain|
    ensures rrsig == EntryRrsig(z, i) && WellFormedRrsig(rrsig) && ValidAt(rrsig, 0)
    ensures rrsig.labels as nat == SignedLabels(z.chain[i].owner) && rrsig.typeCovered == RecordType.Nsec
    ensures rrsig.algorithm == ALGORITHM && rrsig.keyTag == KeyTag(KEY_RDATA) && rrsig.signerName == z.apex
  {
    EntryNames(z, i);
    hide WellFormed, WellFormedRrsig, ParseRrsig, ValidZone, SignerRrsigRdata, KeyTag, SignedLabels;
    SignerRrsigReads(SignedLabels(z.chain[i].owner), z.apex);
    rrsig := SignerRrsig(SignedLabels(z.chain[i].owner), z.apex);
  }

  lemma OneRecordPublished(z: Zone, r: ResourceRecord, i: nat, rrsig: RrsigRecord)
    requires StatesEntryAt(z, r, i) && WellFormed(r.name) && WellFormedRrsig(rrsig)
    requires rrsig.labels as nat == SignedLabels(r.name)
    ensures Publishes(z, [r], rrsig)
  {
    hide WellFormed, WellFormedRrsig, SignedLabels, StatesEntryAt;
    assert StatesEntry(z, r);
  }

  /** The same signature holds over the entry presented at any name with that signed owner. */
  lemma PresentedIsSigned(z: Zone, i: nat, name: DnsName)
    requires CanStandAt(z, i, name)
    ensures var signed := SignedBytes(Presented(z, i, name).records, EntryRrsig(z, i), 0);
      signed.Ok? && SignedByZone(z, signed.value)
  {
    EntryNames(z, i);
    var owner := z.chain[i].owner;
    OwnerNameIsOwner(owner, SignedLabels(owner));
    hide WellFormed, Wire, ParseNsec, CanonicalNsec, OwnerName, WellFormedRrsig, ValidZone, UsableMaps, CoveredBy, SignedBytes,
         Publishes, Presented, EntryRrsig, SignedLabels, ValidAt, KeyTag;
    var rrsig := EntryRrsigIs(z, i);
    var here := PresentedRecord(z, i, owner);
    var there := PresentedRecord(z, i, name);
    OneRecordCovered(here, rrsig, owner);
    OneRecordCovered(there, rrsig, owner);
    SameCoveredSameBytes([there], [here], rrsig, 0);
    OneRecordPublished(z, here, i, rrsig);
  }

  lemma OneRrsigReads(r: ResourceRecord, owner: DnsName, class_: u16, rrsig: RrsigRecord)
    requires r.rtype == Rrsig && r.name == owner && r.class_ == class_ && ParseRrsig(r.rdata) == Ok(rrsig)
    ensures ParseRrsigs([r], owner, class_) == Ok([rrsig])
  {
    hide ParseRrsig;
    assert [r][1..] == [] && ParseRrsigs([], owner, class_) == Ok([]);
    assert [rrsig] + [] == [rrsig];
  }

  lemma PresentedRrsig(z: Zone, i: nat, name: DnsName)
    requires ValidZone(z) && i < |z.chain|
    ensures ParseRrsigs(Presented(z, i, name).rrsigs, name, 1) == Ok([EntryRrsig(z, i)])
  {
    EntryNames(z, i);
    hide WellFormed, ParseRrsig, ParseRrsigs, ValidZone, SignerRrsigRdata, SignerRrsig, SignedLabels, NsecRdata;
    var s := Presented(z, i, name);
    assert |s.rrsigs| == 1 && s.rrsigs == [s.rrsigs[0]];
    SignerRrsigReads(SignedLabels(z.chain[i].owner), z.apex);
    OneRrsigReads(s.rrsigs[0], name, 1, EntryRrsig(z, i));
  }

  /** The validator accepts an entry at every name with that signed owner: its own, or any expansion of it. */
  lemma PresentedIsAccepted(z: Zone, i: nat, name: DnsName)
    requires CanStandAt(z, i, name)
    ensures Accept(ZoneSigner(z), Presented(z, i, name)) == Ok(Secure)
  {
    PresentedIsSigned(z, i, name);
    PresentedRrsig(z, i, name);
    KeyReads(z);
    hide *;
    var rrsig := EntryRrsigIs(z, i);
    var r := PresentedRecord(z, i, name);
    SignerAccepts(z, r, Presented(z, i, name).rrsigs, rrsig);
  }

  /** One record, one RRSIG of the signer over it, and its key. */
  lemma SignerAccepts(z: Zone, r: ResourceRecord, rrsigs: seq<ResourceRecord>, rrsig: RrsigRecord)
    requires ParseDnskeys(ZoneSigner(z).dnskeys) == Ok([DnskeyRecord(0x100, ALGORITHM, [0], KEY_RDATA)])
    requires r.rtype == RecordType.Nsec && ParseRrsigs(rrsigs, r.name, r.class_) == Ok([rrsig])
    requires rrsig.algorithm == ALGORITHM && rrsig.keyTag == KeyTag(KEY_RDATA) && rrsig.signerName == z.apex
    requires rrsig.typeCovered == RecordType.Nsec && SignedBytes([r], rrsig, 0).Ok?
    requires SignedByZone(z, SignedBytes([r], rrsig, 0).value)
    ensures Accept(ZoneSigner(z), SignedSet([r], rrsigs)) == Ok(Secure)
  {
    hide SignedBytes, SignedByZone, KeyTag, ParseRrsigs, ParseDnskeys;
    var x, key := ZoneSigner(z), DnskeyRecord(0x100, ALGORITHM, [0], KEY_RDATA);
    SecureIffVerified(x.crypto, x.signer, x.dnskeys, [r], rrsigs, x.now);
    assert Verifies(x.crypto, [r], z.apex, RecordType.Nsec, rrsig, key, 0);
    hide ValidateRrsetSignature;
  }

  // ---------------------------------------------------------------- what the validators answer to it

  /** The exact answers over a presented entry: its range starts at the presented name, its types are the entry's. */
  lemma PresentedAnswers(z: Zone, i: nat, name: DnsName, query: DnsName, qtype: RecordType)
    requires CanStandAt(z, i, name)
    ensures var x, s := ZoneSigner(z), Presented(z, i, name);
      && WellFormedNames(s.records)
      && ValidateNameRange(x, query, s) == Ok(if NsecCovers(name, NextOwner(Owners(z), i), query) then Secure else Bogus)
      && ValidateNsecNoData(x, query, qtype, s)
         == Ok(if query == name && !HasType(z.chain[i].maps, qtype.Code()) && !HasType(z.chain[i].maps, Cname.Code())
               then Secure else Bogus)
  {
    PresentedIsAccepted(z, i, name);
    hide WellFormed, OwnerName, ParseNsec, CanonicalNsec, ValidZone, Accept, Presented, NsecCovers, HasType, ValidBitmaps,
         SignedLabels, RecordType.Code, ZoneSigner;
    var r := PresentedRecord(z, i, name);
    assert [r][1..] == [] && CoversIn([], query) == Ok(false) && LacksIn([], query, qtype) == Ok(false);
    assert CoversIn([r], query) == Ok(NsecCovers(name, NextOwner(Owners(z), i), query));
  }

  /** Presented at its own owner nothing is expanded, and anywhere else it is. */
  lemma PresentedIsExpandedIff(z: Zone, i: nat, name: DnsName)
    requires CanStandAt(z, i, name)
    ensures NothingExpanded(Presented(z, i, name)) <==> name == z.chain[i].owner
  {
    PresentedRrsig(z, i, name);
    OwnerNameIsOwner(name, SignedLabels(z.chain[i].owner));
    EntryNames(z, i);
    hide WellFormed, OwnerName, ParseNsec, CanonicalNsec, ValidZone, Presented, ParseRrsigs, EntryRrsig, WellFormedRrsig, ValidAt;
    var rrsig := EntryRrsigIs(z, i);
    var r := PresentedRecord(z, i, name);
    var s := Presented(z, i, name);
    assert s.records == [r] && ParseRrsigs(s.rrsigs, name, 1) == Ok([rrsig]);
    assert NothingExpanded(s) <==> Unexpanded([r], rrsig);
  }

  /**
   * A failing family: where the wildcard entry i expands to another owner k, the answer denies
   * every type that the wildcard lacks, though the owner has it.
   */
  lemma ExpandedDeniesTypes(z: Zone, i: nat, k: nat, qtype: RecordType)
    requires k < |z.chain| && CanStandAt(z, i, z.chain[k].owner)
    requires !HasType(z.chain[i].maps, qtype.Code()) && !HasType(z.chain[i].maps, Cname.Code())
    requires HasType(z.chain[k].maps, qtype.Code())
    ensures var x, s := ZoneSigner(z), Presented(z, i, z.chain[k].owner);
      && Unforgeable(x, z) && WellFormedNames(s.records) && !NothingExpanded(s)
      && ValidateNsecNoData(x, z.chain[k].owner, qtype, s) == Ok(Secure)
  {
    hide HasType, NothingExpanded, WellFormedNames, ValidateNsecNoData, ValidateNameRange, Presented, ZoneSigner, NsecCovers,
         Unforgeable, ValidZone, UsableMaps, WellFormed, OwnerName, SignedLabels, RecordType.Code;
    ZoneSignerIsUnforgeable(z);
    PresentedAnswers(z, i, z.chain[k].owner, z.chain[k].owner, qtype);
    PresentedIsExpandedIff(z, i, z.chain[k].owner);
    if i != k {
      EntriesAreDistinct(z, i, k);
    }
  }

  lemma EntriesAreDistinct(z: Zone, i: nat, k: nat)
    requires i != k && k < |z.chain| && CanStandAt(z, i, z.chain[k].owner)
    ensures z.chain[i].owner != z.chain[k].owner
  {
    OwnersAreDistinct(Owners(z), if i < k then i else k, if i < k then k else i);
    assert Owners(z)[i] == z.chain[i].owner && Owners(z)[k] == z.chain[k].owner;
  }

  /** Another: where the wildcard entry expands to a name outside its own range, the answer denies the wildcard itself. */
  lemma MisplacedDeniesAnOwner(z: Zone, i: nat, name: DnsName)
    requires CanStandAt(z, i, name) && name != z.chain[i].owner
    requires !NsecCovers(z.chain[i].owner, NextOwner(Owners(z), i), name)
    ensures var x, s := ZoneSigner(z), Presented(z, i, name);
      && Unforgeable(x, z) && WellFormedNames(s.records) && !NothingExpanded(s)
      && z.chain[i].owner in Owners(z) && ValidateNameRange(x, z.chain[i].owner, s) == Ok(Secure)
  {
    ZoneSignerIsUnforgeable(z);
    PresentedAnswers(z, i, name, z.chain[i].owner, RecordType.Nsec);
    PresentedIsExpandedIff(z, i, name);
    assert Owners(z)[i] == z.chain[i].owner;
    OutsideCoversOwner(z.chain[i].owner, NextOwner(Owners(z), i), name);
    hide *;
  }

  ghost predicate UsableZone(z: Zone) {
    ValidZone(z) && forall i | 0 <= i < |z.chain| :: UsableMaps(z.chain[i].maps)
  }

  lemma OwnPlace(z: Zone, i: nat)
    requires UsableZone(z) && i < |z.chain|
    ensures CanStandAt(z, i, z.chain[i].owner)
  {
    EntryNames(z, i);
    OwnerNameIsOwner(z.chain[i].owner, SignedLabels(z.chain[i].owner));
    hide WellFormed, OwnerName, UsableMaps;
  }

  /**
   * Every zone can prove every name error with its own records, whichever ancestor of the name the
   * caller takes for its encloser, if only the wildcard below that one owns nothing.
   */
  lemma ZoneProvesNameErrors(z: Zone, query: DnsName, encloser: DnsName) returns (covering: SignedSet, wildcard: SignedSet)
    requires UsableZone(z) && WellFormed(query) && IsStrictSubdomain(query, encloser) && WildcardChild(encloser).Ok?
    requires query !in Owners(z) && [WILDCARD] + encloser !in Owners(z)
    ensures WellFormedNames(covering.records) && WellFormedNames(wildcard.records)
    ensures NothingExpanded(covering) && NothingExpanded(wildcard)
    ensures ValidateNsecNameError(ZoneSigner(z), query, encloser, covering, wildcard) == Ok(Secure)
  {
    var i := EvidenceExists(z, query);
    var j := EvidenceExists(z, [WILDCARD] + encloser);
    OwnPlace(z, i);
    OwnPlace(z, j);
    covering, wildcard := Presented(z, i, z.chain[i].owner), Presented(z, j, z.chain[j].owner);
    PresentedIsExpandedIff(z, i, z.chain[i].owner);
    PresentedIsExpandedIff(z, j, z.chain[j].owner);
    PresentedAnswers(z, i, z.chain[i].owner, query, RecordType.Nsec);
    PresentedAnswers(z, j, z.chain[j].owner, [WILDCARD] + encloser, RecordType.Nsec);
    Nsec3Soundness.SuffixIsWellFormed(query, encloser);
    Nsec3Soundness.WildcardChildIs(encloser);
    hide ValidateNameRange, NsecCovers, WellFormed, WildcardChild, UsableZone, WellFormedNames, NothingExpanded, Owners, CanStandAt;
    SecureHasRecords(ZoneSigner(z), query, covering);
    SecureHasRecords(ZoneSigner(z), [WILDCARD] + encloser, wildcard);
  }

  lemma SecureHasRecords(x: Context, query: DnsName, s: SignedSet)
    requires ValidateNameRange(x, query, s) == Ok(Secure)
    ensures s.records != []
  {
  }

  // ---------------------------------------------------------------- two zones

  /** Another label below a name that leaves room for it. */
  lemma ChildIsWellFormed(octets: Label, parent: DnsName)
    requires IsStoredLabel(octets) && WellFormed(parent) && LabelsSize(parent) + |octets| < MAX_NAME_LEN
    ensures WellFormed([octets] + parent) && LabelsSize([octets] + parent) == LabelsSize(parent) + |octets| + 1
    ensures EndsWith([octets] + parent, parent)
  {
    hide LabelsSize, IsStoredLabel;
    SizeOfPrefix([octets], parent);
    OneLabelSize(octets);
    var name := [octets] + parent;
    assert forall i | 0 < i < |name| :: name[i] == parent[i - 1];
  }

  lemma {:induction false} SiblingsInOrder(a: Label, b: Label, parent: DnsName)
    requires CompareBytes(a, b) == Less
    ensures NameLess([a] + parent, [b] + parent)
    decreases |parent|
  {
    hide CompareBytes;
    var x, y := [a] + parent, [b] + parent;
    if parent == [] {
      assert x[|x| - 1] == a && y[|y| - 1] == b;
    } else {
      var n := |parent|;
      assert x[|x| - 1] == y[|y| - 1] == parent[n - 1];
      assert x[..|x| - 1] == [a] + parent[..n - 1] && y[..|y| - 1] == [b] + parent[..n - 1];
      CompareBytesEqual(parent[n - 1], parent[n - 1]);
      SiblingsInOrder(a, b, parent[..n - 1]);
    }
  }

  /** The octet of a one-letter label. */
  predicate Letter(octet: byte) { 0x61 <= octet <= 0x7a }

  lemma LettersAreLabels(octet: byte)
    requires Letter(octet) || octet == 0x2a
    ensures IsStoredLabel([octet])
  {
    assert Lower([octet]) == [octet];
  }

  lemma OctetsInOrder(a: byte, b: byte)
    requires a < b
    ensures CompareBytes([a], [b]) == Less
  {
  }

  /** The owner e, a wildcard below it that owns a TXT record, and l.e that owns an address. */
  ghost function WildcardZone(e: DnsName, below: byte): Zone {
    Zone(e, [Entry(e, [0, 1, 0x22]), Entry([WILDCARD] + e, [0, 3, 0, 0, 0x80]), Entry([[below]] + e, [0, 1, 0x40])])
  }

  lemma WildcardZoneIsUsable(e: DnsName, below: byte)
    requires WellFormed(e) && LabelsSize(e) < 200 && Letter(below)
    ensures UsableZone(WildcardZone(e, below))
  {
    var z, wildcard, leaf := WildcardZone(e, below), [WILDCARD] + e, [[below]] + e;
    LettersAreLabels(0x2a);
    LettersAreLabels(below);
    ChildIsWellFormed(WILDCARD, e);
    ChildIsWellFormed([below], e);
    OctetsInOrder(0x2a, below);
    SiblingsInOrder(WILDCARD, [below], e);
    AncestorComesFirst(wildcard, e);
    AncestorComesFirst(leaf, e);
    MapsAreUsable();
    hide *;
    WildcardZoneChain(e, below);
    ThreeEntries(z, e, wildcard, leaf);
  }

  lemma WildcardZoneChain(e: DnsName, below: byte)
    ensures var z := WildcardZone(e, below);
      && z.apex == e && |z.chain| == 3 && z.chain[0] == Entry(e, [0, 1, 0x22])
      && z.chain[1] == Entry([WILDCARD] + e, [0, 3, 0, 0, 0x80]) && z.chain[2] == Entry([[below]] + e, [0, 1, 0x40])
    ensures EndsWith(e, e)
  {
  }

  lemma ThreeEntries(z: Zone, a: DnsName, b: DnsName, c: DnsName)
    requires |z.chain| == 3 && z.chain[0].owner == a && z.chain[1].owner == b && z.chain[2].owner == c
    requires UsableMaps(z.chain[0].maps) && UsableMaps(z.chain[1].maps) && UsableMaps(z.chain[2].maps)
    requires NameLess(a, b) && NameLess(b, c) && NameLess(a, c)
    requires WellFormed(a) && WellFormed(b) && WellFormed(c)
    requires EndsWith(a, z.apex) && EndsWith(b, z.apex) && EndsWith(c, z.apex)
    ensures ValidZone(z) && UsableZone(z) && Owners(z) == [a, b, c]
  {
    hide WellFormed, NameLess, UsableMaps, EndsWith;
    assert Owners(z) == [a, b, c];
  }

  lemma WildcardStandsBelow(e: DnsName, below: byte)
    requires WellFormed(e) && LabelsSize(e) < 200 && Letter(below)
    ensures CanStandAt(WildcardZone(e, below), 1, [[below]] + e)
  {
    var z, wildcard, leaf := WildcardZone(e, below), [WILDCARD] + e, [[below]] + e;
    WildcardZoneIsUsable(e, below);
    LettersAreLabels(0x2a);
    LettersAreLabels(below);
    ChildIsWellFormed(WILDCARD, e);
    ChildIsWellFormed([below], e);
    OwnerNameIsOwner(wildcard, |e|);
    SameSignedOwner(wildcard, leaf, e);
    hide WellFormed, LabelsSize, EndsWith, IsStoredLabel, OwnerName, UsableMaps, ValidZone;
    assert z.chain[1].owner == wildcard && SignedLabels(wildcard) == |e|;
  }

  lemma SameSignedOwner(a: DnsName, b: DnsName, e: DnsName)
    requires a != [] && b != [] && a[1..] == b[1..] == e
    ensures OwnerName(a, |e|) == OwnerName(b, |e|)
  {
    hide LowerAll;
    assert a[|a| - |e|..] == e == b[|b| - |e|..];
  }

  lemma MapsAreUsable()
    ensures UsableMaps([0, 1, 0x22]) && UsableMaps([0, 3, 0, 0, 0x80]) && UsableMaps([0, 1, 0x40])
    ensures HasType([0, 1, 0x40], 1) && !HasType([0, 3, 0, 0, 0x80], 1) && !HasType([0, 3, 0, 0, 0x80], 5)
  {
  }

  /** An address that exists is denied, and so is the wildcard: the records offered are the wildcard's, expanded. */
  lemma ExpandedRecordsDeceive(e: DnsName, below: byte) returns (x: Context, z: Zone, s: SignedSet)
    requires WellFormed(e) && LabelsSize(e) < 200 && Letter(below)
    ensures ValidZone(z) && Unforgeable(x, z) && WellFormedNames(s.records) && !NothingExpanded(s)
    ensures z == WildcardZone(e, below) && z.chain[2].owner == [[below]] + e && HasType(z.chain[2].maps, A.Code())
    ensures ValidateNsecNoData(x, [[below]] + e, A, s) == Ok(Secure)
    ensures [WILDCARD] + e in Owners(z) && ValidateNameRange(x, [WILDCARD] + e, s) == Ok(Secure)
  {
    hide *;
    z := WildcardZone(e, below);
    WildcardStandsBelow(e, below);
    WildcardZoneParts(e, below);
    DeceivesAtTheEnd(z, 1, 2, A);
    x, s := ZoneSigner(z), Presented(z, 1, [[below]] + e);
  }

  lemma WildcardZoneParts(e: DnsName, below: byte)
    requires Letter(below)
    ensures var z := WildcardZone(e, below);
      && |z.chain| == 3 && z.chain[1].owner == [WILDCARD] + e != [[below]] + e == z.chain[2].owner
      && HasType(z.chain[2].maps, A.Code())
      && !HasType(z.chain[1].maps, A.Code()) && !HasType(z.chain[1].maps, Cname.Code())
  {
    MapsAreUsable();
    hide HasType;
    FirstLabels(WILDCARD, [below], e, e);
  }

  /** An entry expanded to its own next owner denies that owner's types and covers every other name, its own owner too. */
  lemma DeceivesAtTheEnd(z: Zone, i: nat, k: nat, qtype: RecordType)
    requires k == i + 1 < |z.chain| && CanStandAt(z, i, z.chain[k].owner)
    requires !HasType(z.chain[i].maps, qtype.Code()) && !HasType(z.chain[i].maps, Cname.Code())
    requires HasType(z.chain[k].maps, qtype.Code())
    ensures var x, s := ZoneSigner(z), Presented(z, i, z.chain[k].owner);
      && ValidZone(z) && Unforgeable(x, z) && WellFormedNames(s.records) && !NothingExpanded(s)
      && ValidateNsecNoData(x, z.chain[k].owner, qtype, s) == Ok(Secure)
      && z.chain[i].owner in Owners(z) && ValidateNameRange(x, z.chain[i].owner, s) == Ok(Secure)
  {
    hide HasType, NothingExpanded, WellFormedNames, ValidateNsecNoData, ValidateNameRange, Presented, ZoneSigner, NsecCovers,
         Unforgeable, ValidZone, UsableMaps, WellFormed, OwnerName, SignedLabels, RecordType.Code;
    ExpandedDeniesTypes(z, i, k, qtype);
    EntriesAreDistinct(z, i, k);
    EndIsNotCovered(z.chain[i].owner, z.chain[k].owner);
    MisplacedDeniesAnOwner(z, i, z.chain[k].owner);
  }

  lemma EndIsNotCovered(owner: DnsName, next: DnsName)
    requires owner != next
    ensures !NsecCovers(owner, next, next)
  {
    NsecCoversIsCircular(owner, next, next);
    NameLessIsStrictTotal();
    hide NameLess, NsecCovers;
  }

  /** The owners e, b.e and *.b.e. */
  ghost function DeepZone(e: DnsName, b: byte, maps: seq<byte>): Zone {
    Zone(e, [Entry(e, maps), Entry([[b]] + e, maps), Entry([WILDCARD] + ([[b]] + e), maps)])
  }

  lemma DeepZoneIsUsable(e: DnsName, b: byte, maps: seq<byte>)
    requires WellFormed(e) && LabelsSize(e) < 200 && Letter(b) && UsableMaps(maps)
    ensures ValidZone(DeepZone(e, b, maps)) && UsableZone(DeepZone(e, b, maps))
    ensures Owners(DeepZone(e, b, maps)) == [e, [[b]] + e, [WILDCARD] + ([[b]] + e)]
  {
    hide WellFormed, LabelsSize, NameLess, IsStoredLabel, UsableMaps, UsableZone, ValidZone, Owners;
    var middle := [[b]] + e;
    var leaf := [WILDCARD] + middle;
    LettersAreLabels(b);
    LettersAreLabels(0x2a);
    ChildIsWellFormed([b], e);
    ChildIsWellFormed(WILDCARD, middle);
    assert leaf[2..] == e && EndsWith(e, e);
    AncestorComesFirst(middle, e);
    AncestorComesFirst(leaf, middle);
    AncestorComesFirst(leaf, e);
    ThreeEntries(DeepZone(e, b, maps), e, middle, leaf);
  }

  lemma WildcardChildFits(e: DnsName)
    requires WellFormed(e) && LabelsSize(e) < 200
    ensures WildcardChild(e) == Ok([WILDCARD] + e)
  {
    LettersAreLabels(0x2a);
    ChildIsWellFormed(WILDCARD, e);
    FromAsciiInvertsJoin([WILDCARD] + e);
    assert ([WILDCARD] + e)[1..] == e;
    hide LabelsSize, FromAscii, Join, WellFormed;
    assert e == [] ==> [WILDCARD] + e == [WILDCARD];
  }

  /** In that zone the closest encloser of x.b.e is b.e. */
  lemma DeepZoneEncloser(z: Zone, e: DnsName, middle: DnsName, b: byte, x: byte)
    requires Letter(b) && Letter(x) && middle == [[b]] + e && Owners(z) == [e, middle, [WILDCARD] + middle]
    ensures var query := [[x]] + middle;
      && query !in Owners(z) && [WILDCARD] + e !in Owners(z)
      && IsClosestEncloser(z, query, middle) && !IsClosestEncloser(z, query, e)
  {
    hide Owners, IsClosestEncloser;
    var query, leaf := [[x]] + middle, [WILDCARD] + middle;
    FirstLabels([x], WILDCARD, middle, middle);
    FirstLabels(WILDCARD, [b], e, e);
    assert middle[1..] == e && query[0..] == query && query[1..] == middle && query[2..] == e;
    ThreeOwners(z, e, middle, leaf, query);
  }

  lemma FirstLabels(a: Label, b: Label, s: DnsName, t: DnsName)
    requires a != b
    ensures [a] + s != [b] + t
  {
    assert ([a] + s)[0] == a && ([b] + t)[0] == b;
  }

  lemma ThreeOwners(z: Zone, e: DnsName, middle: DnsName, leaf: DnsName, query: DnsName)
    requires Owners(z) == [e, middle, leaf] && |query| == |leaf| == |e| + 2 && query != leaf && |middle| == |e| + 1
    requires query[0..] == query && query[1..] == middle && query[2..] == e
    ensures IsClosestEncloser(z, query, middle) && !IsClosestEncloser(z, query, e)
  {
    assert middle in Owners(z) && EndsWith(middle, middle);
    assert Exists(z, middle);
    assert leaf[0..] == leaf;
    assert !Exists(z, query);
  }

  /**
   * A name error with an encloser that is too short is Secure even where the wildcard at the true
   * closest encloser would have answered the query. Nothing is expanded in it.
   */
  lemma ShortEncloserDeceives(e: DnsName, b: byte, x: byte, maps: seq<byte>)
    returns (c: Context, z: Zone, covering: SignedSet, wildcard: SignedSet)
    requires WellFormed(e) && LabelsSize(e) < 200 && Letter(b) && Letter(x) && UsableMaps(maps)
    ensures ValidZone(z) && Unforgeable(c, z) && WellFormedNames(covering.records) && WellFormedNames(wildcard.records)
    ensures NothingExpanded(covering) && NothingExpanded(wildcard)
    ensures var query := [[x]] + ([[b]] + e);
      && ValidateNsecNameError(c, query, e, covering, wildcard) == Ok(Secure)
      && IsClosestEncloser(z, query, [[b]] + e) && [WILDCARD] + ([[b]] + e) in Owners(z)
      && EncloserFrom(covering.records, query) != Some(e)
  {
    hide *;
    z := DeepZone(e, b, maps);
    c := ZoneSigner(z);
    DeepZoneIsUsable(e, b, maps);
    DeepZoneEncloser(z, e, [[b]] + e, b, x);
    WildcardChildFits(e);
    ZoneSignerIsUnforgeable(z);
    QueryBelow(e, b, x);
    covering, wildcard := ZoneProvesNameErrors(z, [[x]] + ([[b]] + e), e);
    SignedNameErrorIsExact(c, z, [[x]] + ([[b]] + e), e, covering, wildcard);
  }

  lemma QueryBelow(e: DnsName, b: byte, x: byte)
    requires WellFormed(e) && LabelsSize(e) < 200 && Letter(b) && Letter(x)
    ensures WellFormed([[x]] + ([[b]] + e)) && IsStrictSubdomain([[x]] + ([[b]] + e), e)
  {
    assert ([[x]] + ([[b]] + e))[2..] == e;
    LettersAreLabels(b);
    LettersAreLabels(x);
    ChildIsWellFormed([b], e);
    ChildIsWellFormed([x], [[b]] + e);
  }
}
