/**
 * Plain NSEC from signatures alone (rust/crates/hns-dnssec/src/lib.rs). The bytes that a signature
 * covers fix the owner of a record only up to wildcard expansion, and the validators do not compare
 * the signed label count with the owner. This module says exactly what that leaves true.
 */
module NsecSigned {
  import opened Prelude
  import opened WireName
  import opened WireMessage
  import opened NameText
  import opened CircularOrder
  import opened Rdata
  import opened SignedData
  import opened Signatures
  import opened Nsec3
  import opened Nsec
  import opened NsecEncloser
  import Nsec3Soundness

  // ---------------------------------------------------------------- the zone's signer

  /** The label count of an owner as its signer states it: a leading wildcard is not counted (section 3.1.3 of RFC 4034). */
  function SignedLabels(owner: DnsName): nat {
    if owner != [] && owner[0] == WILDCARD then |owner| - 1 else |owner|
  }

  ghost predicate Publishes(z: Zone, rrset: seq<ResourceRecord>, rrsig: RrsigRecord) {
    && WellFormedNames(rrset) && WellFormedRrsig(rrsig) && Truthful(z, rrset)
    && forall r | r in rrset && r.rtype == RecordType.Nsec :: rrsig.labels as nat == SignedLabels(r.name)
  }

  ghost predicate SignedByZone(z: Zone, data: seq<byte>) {
    exists rrset, rrsig, now :: SignedBytes(rrset, rrsig, now) == Ok(data) && Publishes(z, rrset, rrsig)
  }

  /** Under the given keys, signatures hold only over data that the zone signed. */
  ghost predicate Unforgeable(x: Context, z: Zone) {
    forall key: DnskeyRecord, data: seq<byte>, signature: seq<byte> ::
      ParseDnskeys(x.dnskeys).Ok? && key in ParseDnskeys(x.dnskeys).value
      && x.crypto.holds(key.algorithm, key.publicKey, data, signature)
      ==> SignedByZone(z, data)
  }

  lemma HeldBySignedData(x: Context, z: Zone, key: DnskeyRecord, data: seq<byte>, signature: seq<byte>)
    requires Unforgeable(x, z) && ParseDnskeys(x.dnskeys).Ok? && key in ParseDnskeys(x.dnskeys).value
    requires x.crypto.holds(key.algorithm, key.publicKey, data, signature)
    ensures SignedByZone(z, data)
  {
    hide SignedByZone, ParseDnskeys;
  }

  // ---------------------------------------------------------------- from signed bytes to entries

  /** The record carries the data of entry i, and its signed owner is the owner of that entry. */
  ghost predicate CarriesEntry(z: Zone, r: ResourceRecord, labels: nat, i: nat) {
    && i < |z.chain| && labels <= |r.name| && OwnerName(r.name, labels) == z.chain[i].owner
    && labels == SignedLabels(z.chain[i].owner)
    && ParseNsec(r.rdata) == Ok(NsecRecord(NextOwner(Owners(z), i), z.chain[i].maps))
  }

  /** The label count that belongs to an owner leaves it as it is; any smaller one makes it a wildcard. */
  lemma OwnerNameIsOwner(owner: DnsName, labels: nat)
    requires WellFormed(owner) && labels <= |owner|
    ensures labels == SignedLabels(owner) ==> OwnerName(owner, labels) == owner
  {
    OwnerNameIsWellFormed(owner, labels);
    if labels == SignedLabels(owner) && labels < |owner| {
      assert owner == [WILDCARD] + owner[1..] == [[0x2a]] + owner[|owner| - labels..];
      hide LabelsSize;
      LowerStored(owner);
    }
  }

  lemma TwinCarriesEntry(z: Zone, r: ResourceRecord, twin: ResourceRecord, labels: nat)
    requires WellFormed(r.name) && WellFormed(twin.name) && labels == SignedLabels(twin.name) && labels <= |r.name|
    requires labels <= |twin.name| && OwnerName(r.name, labels) == OwnerName(twin.name, labels)
    requires r.rtype == twin.rtype == RecordType.Nsec
    requires CanonicalRdata(r.rtype, r.rdata).Ok? && CanonicalRdata(r.rtype, r.rdata) == CanonicalRdata(twin.rtype, twin.rdata)
    requires StatesEntry(z, twin)
    ensures exists i: nat :: CarriesEntry(z, r, labels, i)
  {
    hide WellFormed, Wire, ParseNsec, CanonicalNsec, OwnerName, SignedLabels;
    SameNsec(r.rdata, twin.rdata);
    OwnerNameIsOwner(twin.name, labels);
    var i := EntryOf(z, twin);
    assert CarriesEntry(z, r, labels, i);
  }

  lemma SameNsec(a: seq<byte>, b: seq<byte>)
    requires CanonicalNsec(a).Ok? && CanonicalNsec(a) == CanonicalNsec(b)
    ensures ParseNsec(a) == ParseNsec(b)
  {
    NsecIsStable(a);
    NsecIsStable(b);
    hide ParseNsec, CanonicalNsec;
  }

  /** Every NSEC record that a signature of the zone covers carries an entry of the zone. */
  lemma SignedCarriesEntry(x: Context, z: Zone, rrset: seq<ResourceRecord>, rrsig: RrsigRecord, key: DnskeyRecord, r: ResourceRecord)
    returns (i: nat)
    requires Unforgeable(x, z) && WellFormedNames(rrset) && WellFormedRrsig(rrsig)
    requires ParseDnskeys(x.dnskeys).Ok? && key in ParseDnskeys(x.dnskeys).value && Signed(x.crypto, rrset, rrsig, key, x.now)
    requires r in rrset && r.rtype == RecordType.Nsec
    ensures WellFormed(r.name) && CarriesEntry(z, r, rrsig.labels, i)
  {
    hide WellFormedRrsig, StatesEntry, CanonicalRdata, OwnerName, Unforgeable, SignedBytes, WellFormedNames, WellFormed,
         ParseDnskeys, CarriesEntry;
    var data := SignedBytes(rrset, rrsig, x.now).value;
    HeldBySignedData(x, z, key, data, rrsig.signature);
    var published, rrsig', now :| SignedBytes(published, rrsig', now) == Ok(data) && Publishes(z, published, rrsig');
    var twin := SharedBytesShareRecords(rrset, rrsig, x.now, published, rrsig', now, r);
    Nsec3Soundness.NameOf(rrset, r);
    Nsec3Soundness.NameOf(published, twin);
    TwinCarriesEntry(z, r, twin, rrsig.labels);
    i :| CarriesEntry(z, r, rrsig.labels, i);
  }

  lemma OwnersAreDistinct(owners: seq<DnsName>, a: nat, b: nat)
    requires SortedCircle(NameLess, owners) && a < b < |owners|
    ensures owners[a] != owners[b]
  {
    NameLessIsStrictTotal();
    hide NameLess;
    assert NameLess(owners[a], owners[b]);
  }

  lemma NextOwnerIsInjective(owners: seq<DnsName>, i: nat, k: nat)
    requires SortedCircle(NameLess, owners) && i < k < |owners|
    ensures NextOwner(owners, i) != NextOwner(owners, k)
  {
    if k + 1 < |owners| {
      OwnersAreDistinct(owners, i + 1, k + 1);
    } else {
      OwnersAreDistinct(owners, 0, i + 1);
    }
  }

  /** A record that carries an entry states one exactly when its signed label count is that of its owner. */
  lemma StatesEntryIff(z: Zone, r: ResourceRecord, labels: nat, i: nat)
    requires ValidZone(z) && WellFormed(r.name) && CarriesEntry(z, r, labels, i)
    ensures StatesEntry(z, r) <==> labels == SignedLabels(r.name)
  {
    OwnerNameIsOwner(r.name, labels);
    hide WellFormed, OwnerName, ParseNsec, SignedLabels, ValidZone;
    if StatesEntry(z, r) {
      var k := EntryOf(z, r);
      SameNextSameEntry(z, i, k);
    }
    if labels == SignedLabels(r.name) {
      assert StatesEntryAt(z, r, i);
    }
  }

  lemma SameNextSameEntry(z: Zone, i: nat, k: nat)
    requires ValidZone(z) && i < |z.chain| && k < |z.chain| && NextOwner(Owners(z), i) == NextOwner(Owners(z), k)
    ensures i == k
  {
    if i < k {
      NextOwnerIsInjective(Owners(z), i, k);
    } else if k < i {
      NextOwnerIsInjective(Owners(z), k, i);
    }
  }

  // ---------------------------------------------------------------- what acceptance means

  /** The signed label count is that of every NSEC record of the set: none is an expanded wildcard. */
  predicate Unexpanded(rrset: seq<ResourceRecord>, rrsig: RrsigRecord) {
    forall r | r in rrset && r.rtype == RecordType.Nsec :: rrsig.labels as nat == SignedLabels(r.name)
  }

  /** What a caller can check before the call: every RRSIG that is offered for the set is unexpanded. */
  predicate NothingExpanded(s: SignedSet) {
    s.records != [] && ParseRrsigs(s.rrsigs, s.records[0].name, s.records[0].class_).Ok? ==>
      forall rrsig | rrsig in ParseRrsigs(s.rrsigs, s.records[0].name, s.records[0].class_).value :: Unexpanded(s.records, rrsig)
  }

  /** The RRSIG is one of the given ones and verifies the set under one of the given keys. */
  ghost predicate Accepting(x: Context, s: SignedSet, rrsig: RrsigRecord) {
    && s.records != [] && ParseRrsigs(s.rrsigs, s.records[0].name, s.records[0].class_).Ok?
    && rrsig in ParseRrsigs(s.rrsigs, s.records[0].name, s.records[0].class_).value && ParseDnskeys(x.dnskeys).Ok?
    && exists key :: key in ParseDnskeys(x.dnskeys).value
         && Verifies(x.crypto, s.records, x.signer, s.records[0].rtype, rrsig, key, x.now)
  }

  lemma AcceptedHasRrsig(x: Context, s: SignedSet) returns (rrsig: RrsigRecord)
    requires Accept(x, s) == Ok(Secure)
    ensures Accepting(x, s, rrsig)
  {
    hide Verifies, ParseDnskeys, ParseRrsigs, Signed, WellFormedRrsig, ValidateRrsetSignature;
    var key;
    rrsig, key := AcceptedIsSigned(x.crypto, x.signer, x.dnskeys, s.records, s.rrsigs, x.now);
  }

  /** Under an accepting RRSIG every NSEC record of the set carries an entry. */
  lemma AcceptingCarriesEntry(x: Context, z: Zone, s: SignedSet, rrsig: RrsigRecord, r: ResourceRecord) returns (i: nat)
    requires Unforgeable(x, z) && WellFormedNames(s.records) && Accepting(x, s, rrsig)
    requires r in s.records && r.rtype == RecordType.Nsec
    ensures WellFormed(r.name) && CarriesEntry(z, r, rrsig.labels, i)
  {
    var key :| key in ParseDnskeys(x.dnskeys).value
      && Verifies(x.crypto, s.records, x.signer, s.records[0].rtype, rrsig, key, x.now);
    ParsedRrsigsAreWellFormed(s.rrsigs, s.records[0].name, s.records[0].class_);
    assert Signed(x.crypto, s.records, rrsig, key, x.now) by {
      hide SignedBytes, KeyTag, ParseDnskeys, ParseRrsigs;
    }
    hide *;
    i := SignedCarriesEntry(x, z, s.records, rrsig, key, r);
  }

  /**
   * For every zone: an accepted set states entries of the zone exactly when an accepting RRSIG is
   * unexpanded, and whichever accepting RRSIG is looked at gives the same answer.
   */
  lemma TruthfulIff(x: Context, z: Zone, s: SignedSet, rrsig: RrsigRecord)
    requires ValidZone(z) && Unforgeable(x, z) && WellFormedNames(s.records) && Accepting(x, s, rrsig)
    ensures Truthful(z, s.records) <==> Unexpanded(s.records, rrsig)
  {
    hide ValidZone, Unforgeable, WellFormedNames, Accepting, WellFormed, StatesEntry, CarriesEntry;
    forall r | r in s.records && r.rtype == RecordType.Nsec
      ensures StatesEntry(z, r) <==> rrsig.labels as nat == SignedLabels(r.name)
    {
      var i := AcceptingCarriesEntry(x, z, s, rrsig, r);
      StatesEntryIff(z, r, rrsig.labels, i);
    }
  }

  /** Every NSEC record of an accepted set states an entry of the zone, if no offered RRSIG expands it. */
  lemma AcceptedIsTruthful(x: Context, z: Zone, s: SignedSet)
    requires ValidZone(z) && Unforgeable(x, z) && WellFormedNames(s.records)
    requires Accept(x, s) == Ok(Secure) && NothingExpanded(s)
    ensures Truthful(z, s.records)
  {
    hide ValidZone, Unforgeable, WellFormedNames, Accept, Truthful, Unexpanded, ParseRrsigs, ParseDnskeys;
    var rrsig := AcceptedHasRrsig(x, s);
    TruthfulIff(x, z, s, rrsig);
  }

  /** In a zone that owns no wildcard nothing can be expanded. */
  lemma NoWildcardNothingExpanded(x: Context, z: Zone, s: SignedSet, rrsig: RrsigRecord)
    requires ValidZone(z) && Unforgeable(x, z) && WellFormedNames(s.records) && Accepting(x, s, rrsig)
    requires forall n | n in Owners(z) :: n == [] || n[0] != WILDCARD
    ensures Unexpanded(s.records, rrsig) && Truthful(z, s.records)
  {
    hide ValidZone, Unforgeable, WellFormedNames, Accepting, Truthful;
    forall r | r in s.records && r.rtype == RecordType.Nsec
      ensures rrsig.labels as nat == SignedLabels(r.name)
    {
      var i := AcceptingCarriesEntry(x, z, s, rrsig, r);
      assert Owners(z)[i] == z.chain[i].owner;
      OwnerNameIsWellFormed(r.name, rrsig.labels);
    }
    TruthfulIff(x, z, s, rrsig);
  }

  // ---------------------------------------------------------------- ranges from signatures

  /** Within a circular interval, the part behind one of its members. */
  lemma SubInterval(owner: DnsName, next: DnsName, middle: DnsName, q: DnsName)
    requires NsecCovers(owner, next, middle) && NsecCovers(middle, next, q)
    ensures NsecCovers(owner, next, q)
  {
    NsecCoversIsCircular(owner, next, middle);
    NsecCoversIsCircular(middle, next, q);
    NsecCoversIsCircular(owner, next, q);
    NameLessIsStrictTotal();
    hide NameLess, NsecCovers;
  }

  /** Starting outside an interval, the way to its end goes over its owner. */
  lemma OutsideCoversOwner(owner: DnsName, next: DnsName, start: DnsName)
    requires start != owner && !NsecCovers(owner, next, start)
    ensures NsecCovers(start, next, owner)
  {
    NsecCoversIsCircular(owner, next, start);
    NsecCoversIsCircular(start, next, owner);
    NameLessIsStrictTotal();
    hide NameLess, NsecCovers;
  }

  /** The record stands at its signed owner, or in the range that its signed owner covers. */
  predicate Placed(r: ResourceRecord, labels: nat) {
    labels <= |r.name| && ParseNsec(r.rdata).Ok? ==>
      r.name == OwnerName(r.name, labels) || NsecCovers(OwnerName(r.name, labels), ParseNsec(r.rdata).value.next, r.name)
  }

  /** The range of a signed record covers no owner of the zone exactly when the record is placed so. */
  lemma RangeIsSoundIff(z: Zone, r: ResourceRecord, labels: nat, i: nat)
    requires ValidZone(z) && CarriesEntry(z, r, labels, i)
    ensures (forall q :: NsecCovers(r.name, NextOwner(Owners(z), i), q) ==> q !in Owners(z)) <==> Placed(r, labels)
  {
    var owner, next := z.chain[i].owner, NextOwner(Owners(z), i);
    assert owner in Owners(z) by { assert Owners(z)[i] == owner; }
    if Placed(r, labels) {
      forall q | NsecCovers(r.name, next, q)
        ensures q !in Owners(z)
      {
        hide NsecCovers, ValidZone, OwnerName, ParseNsec;
        if r.name != owner {
          SubInterval(owner, next, r.name, q);
        }
        CoveredIsNoOwner(z, i, q);
      }
    } else {
      hide NsecCovers, ValidZone, OwnerName, ParseNsec;
      OutsideCoversOwner(owner, next, r.name);
    }
  }

  /** What a caller can check before the call, for ranges: every offered RRSIG leaves every NSEC record placed. */
  predicate NothingMisplaced(s: SignedSet) {
    s.records != [] && ParseRrsigs(s.rrsigs, s.records[0].name, s.records[0].class_).Ok? ==>
      forall rrsig, r | rrsig in ParseRrsigs(s.rrsigs, s.records[0].name, s.records[0].class_).value
        && r in s.records && r.rtype == RecordType.Nsec :: Placed(r, rrsig.labels)
  }

  /** For every zone: what a Secure range answer rests on is a signed record that carries an entry and covers the name. */
  lemma RangeSpeaksOfTheSignedOwner(x: Context, z: Zone, query: DnsName, s: SignedSet)
    returns (rrsig: RrsigRecord, r: ResourceRecord, i: nat)
    requires Unforgeable(x, z) && WellFormedNames(s.records) && ValidateNameRange(x, query, s) == Ok(Secure)
    ensures Accepting(x, s, rrsig) && r in s.records && r.rtype == RecordType.Nsec
    ensures CarriesEntry(z, r, rrsig.labels, i) && NsecCovers(r.name, NextOwner(Owners(z), i), query)
  {
    hide Unforgeable, WellFormedNames, Accept, CoversIn, CoverOf, Accepting, NsecCovers, WellFormed;
    rrsig := AcceptedHasRrsig(x, s);
    CoverOfCovers(s.records, query);
    r := CoverOf(s.records, query).value;
    i := AcceptingCarriesEntry(x, z, s, rrsig, r);
  }

  /** A Secure range answer over a placed set, from signatures alone: the name owns nothing. */
  lemma SignedNameRangeIsSound(x: Context, z: Zone, query: DnsName, s: SignedSet)
    requires ValidZone(z) && Unforgeable(x, z) && WellFormedNames(s.records) && NothingMisplaced(s)
    requires ValidateNameRange(x, query, s) == Ok(Secure)
    ensures query !in Owners(z)
  {
    hide ValidZone, Unforgeable, WellFormedNames, ValidateNameRange, NsecCovers, CarriesEntry, Placed, Verifies, ParseRrsigs, ParseDnskeys;
    var rrsig, r, i := RangeSpeaksOfTheSignedOwner(x, z, query, s);
    RangeIsSoundIff(z, r, rrsig.labels, i);
  }

  /** And over an unexpanded set: the name exists exactly when the next owner lies below it. */
  lemma SignedNameRangeIsExact(x: Context, z: Zone, query: DnsName, s: SignedSet) returns (i: nat)
    requires ValidZone(z) && Unforgeable(x, z) && WellFormedNames(s.records) && NothingExpanded(s)
    requires ValidateNameRange(x, query, s) == Ok(Secure)
    ensures query !in Owners(z)
    ensures i < |z.chain| && (Exists(z, query) <==> EndsWith(NextOwner(Owners(z), i), query))
  {
    hide ValidZone, Unforgeable, WellFormedNames, Accept, CoversIn, NothingExpanded, Truthful;
    AcceptedIsTruthful(x, z, s);
    i := NameRangeIsSound(x, z, query, s);
  }

  // ---------------------------------------------------------------- no data and name errors from signatures

  /**
   * For every zone: a Secure no-data answer says that the signed owner, the query or the wildcard
   * it was expanded from, lacks the type and CNAME. It speaks of the query itself exactly when the
   * signed label count is that of the query.
   */
  lemma NoDataSpeaksOfTheSignedOwner(x: Context, z: Zone, query: DnsName, qtype: RecordType, s: SignedSet)
    returns (rrsig: RrsigRecord, i: nat)
    requires Unforgeable(x, z) && WellFormedNames(s.records) && ValidateNsecNoData(x, query, qtype, s) == Ok(Secure)
    ensures Accepting(x, s, rrsig) && i < |z.chain| && rrsig.labels as nat <= |query|
    ensures z.chain[i].owner == OwnerName(query, rrsig.labels)
    ensures !HasType(z.chain[i].maps, qtype.Code()) && !HasType(z.chain[i].maps, Cname.Code())
    ensures z.chain[i].owner == query <==> rrsig.labels as nat == SignedLabels(query)
  {
    hide Unforgeable, WellFormedNames, Accept, LacksIn, Accepting, HasType, ValidBitmaps, WellFormed, RecordType.Code;
    rrsig := AcceptedHasRrsig(x, s);
    var r := LackingRecordOf(s.records, query, qtype);
    i := AcceptingCarriesEntry(x, z, s, rrsig, r);
    OwnerNameIsOwner(query, rrsig.labels);
  }

  /** A Secure no-data answer over an unexpanded set: the name owns records, none of the type and no CNAME. */
  lemma SignedNoDataIsSound(x: Context, z: Zone, query: DnsName, qtype: RecordType, s: SignedSet) returns (i: nat)
    requires ValidZone(z) && Unforgeable(x, z) && WellFormedNames(s.records) && NothingExpanded(s)
    requires ValidateNsecNoData(x, query, qtype, s) == Ok(Secure)
    ensures i < |z.chain| && z.chain[i].owner == query
    ensures !HasType(z.chain[i].maps, qtype.Code()) && !HasType(z.chain[i].maps, Cname.Code())
  {
    hide ValidZone, Unforgeable, WellFormedNames, Accept, LacksIn, NothingExpanded, Truthful, HasType;
    AcceptedIsTruthful(x, z, s);
    i := NoDataIsSound(x, z, query, qtype, s);
  }

  /** The two parts of a Secure name error are Secure ranges. */
  lemma NameErrorParts(x: Context, query: DnsName, encloser: DnsName, covering: SignedSet, wildcard: SignedSet)
    requires WellFormed(query) && ValidateNsecNameError(x, query, encloser, covering, wildcard) == Ok(Secure)
    ensures IsStrictSubdomain(query, encloser)
    ensures ValidateNameRange(x, query, covering) == Ok(Secure)
    ensures ValidateNameRange(x, [WILDCARD] + encloser, wildcard) == Ok(Secure)
  {
    hide ValidateNameRange, WellFormed, WildcardChild;
    Nsec3Soundness.SuffixIsWellFormed(query, encloser);
    Nsec3Soundness.WildcardChildIs(encloser);
  }

  /** A Secure name error over placed sets: the query and the wildcard below the caller's encloser own nothing. */
  lemma SignedNameErrorIsSound(x: Context, z: Zone, query: DnsName, encloser: DnsName, covering: SignedSet, wildcard: SignedSet)
    requires ValidZone(z) && Unforgeable(x, z) && WellFormed(query)
    requires WellFormedNames(covering.records) && WellFormedNames(wildcard.records)
    requires NothingMisplaced(covering) && NothingMisplaced(wildcard)
    requires ValidateNsecNameError(x, query, encloser, covering, wildcard) == Ok(Secure)
    ensures IsStrictSubdomain(query, encloser) && query !in Owners(z) && [WILDCARD] + encloser !in Owners(z)
  {
    NameErrorParts(x, query, encloser, covering, wildcard);
    hide *;
    SignedNameRangeIsSound(x, z, query, covering);
    SignedNameRangeIsSound(x, z, [WILDCARD] + encloser, wildcard);
  }

  /**
   * And over unexpanded sets, from signatures alone: the caller's encloser is the true closest one
   * exactly when it is the one that the covering set shows, and then the name does not exist and
   * the wildcard that could have answered it owns nothing.
   */
  lemma SignedNameErrorIsExact(x: Context, z: Zone, query: DnsName, encloser: DnsName, covering: SignedSet, wildcard: SignedSet)
    requires ValidZone(z) && Unforgeable(x, z) && WellFormed(query)
    requires WellFormedNames(covering.records) && WellFormedNames(wildcard.records)
    requires NothingExpanded(covering) && NothingExpanded(wildcard)
    requires ValidateNsecNameError(x, query, encloser, covering, wildcard) == Ok(Secure)
    ensures IsClosestEncloser(z, query, encloser) <==> EncloserFrom(covering.records, query) == Some(encloser)
    ensures EncloserFrom(covering.records, query) == Some(encloser) ==>
      !Exists(z, query) && query !in Owners(z) && [WILDCARD] + encloser !in Owners(z)
  {
    NameErrorParts(x, query, encloser, covering, wildcard);
    hide ValidZone, Unforgeable, WellFormed, WellFormedNames, NothingExpanded, ValidateNsecNameError, Accept, CoversIn,
         IsClosestEncloser, EncloserFrom, Exists, Truthful;
    AcceptedIsTruthful(x, z, covering);
    AcceptedIsTruthful(x, z, wildcard);
    NameErrorIsExact(x, z, query, encloser, covering, wildcard);
  }
}
