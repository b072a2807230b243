/**
 * Denial of existence by plain NSEC records (rust/crates/hns-dnssec/src/lib.rs), and what a Secure
 * answer says about the zone.
 */
module Nsec {
  import opened Prelude
  import opened WireName
  import opened WireMessage
  import opened NameText
  import opened CircularOrder
  import opened Rdata
  import opened SignedData
  import opened Signatures
  import opened Nsec3
  import Nsec3Soundness

  // ---------------------------------------------------------------- validators

  function Accept(x: Context, s: SignedSet): Result<Status, DnssecError> {
    ValidateRrsetSignature(x.crypto, x.signer, x.dnskeys, s.records, s.rrsigs, x.now)
  }

  /** Some NSEC record covers the name; a malformed record before it is an error. */
  function CoversIn(rrset: seq<ResourceRecord>, query: DnsName): Result<bool, DnssecError> {
    if rrset == [] then Ok(false)
    else if rrset[0].rtype != RecordType.Nsec then CoversIn(rrset[1..], query)
    else
      var nsec :- ParseNsec(rrset[0].rdata);
      if NsecCovers(rrset[0].name, nsec.next, query) then Ok(true) else CoversIn(rrset[1..], query)
  }

  /** The record's bitmap has neither the type nor CNAME. */
  function Lacks(nsec: NsecRecord, qtype: RecordType): Result<bool, DnssecError> {
    if !ValidBitmaps(nsec.maps, None) then Err(InvalidNsec)
    else Ok(!HasType(nsec.maps, qtype.Code()) && !HasType(nsec.maps, Cname.Code()))
  }

  function LacksIn(rrset: seq<ResourceRecord>, query: DnsName, qtype: RecordType): Result<bool, DnssecError> {
    if rrset == [] then Ok(false)
    else if rrset[0].rtype != RecordType.Nsec || rrset[0].name != query then LacksIn(rrset[1..], query, qtype)
    else
      var nsec :- ParseNsec(rrset[0].rdata);
      var lacks :- Lacks(nsec, qtype);
      if lacks then Ok(true) else LacksIn(rrset[1..], query, qtype)
  }

  function ValidateNameRange(x: Context, query: DnsName, s: SignedSet): Result<Status, DnssecError> {
    var status :- Accept(x, s);
    if status != Secure then Ok(status)
    else
      var covers :- CoversIn(s.records, query);
      Ok(if covers then Secure else Bogus)
  }

  function ValidateNsecNoData(x: Context, query: DnsName, qtype: RecordType, s: SignedSet): Result<Status, DnssecError> {
    var status :- Accept(x, s);
    if status != Secure then Ok(status)
    else
      var lacks :- LacksIn(s.records, query, qtype);
      Ok(if lacks then Secure else Bogus)
  }

  /** The closest encloser is the caller's word. */
  function ValidateNsecNameError(x: Context, query: DnsName, encloser: DnsName, covering: SignedSet, wildcard: SignedSet)
    : Result<Status, DnssecError>
  {
    if !IsStrictSubdomain(query, encloser) then Ok(Bogus)
    else if covering.records == [] || wildcard.records == [] then Ok(Bogus)
    else
      var status :- ValidateNameRange(x, query, covering);
      if status != Secure then Ok(status)
      else
        var name :- WildcardChild(encloser);
        ValidateNameRange(x, name, wildcard)
  }

  // ---------------------------------------------------------------- the zone

  datatype Entry = Entry(owner: DnsName, maps: seq<byte>)

  /** The names that own records, in canonical order, each with its type bitmap. */
  datatype Zone = Zone(apex: DnsName, chain: seq<Entry>)

  ghost function Owners(z: Zone): (r: seq<DnsName>)
    ensures |r| == |z.chain| && forall i | 0 <= i < |z.chain| :: r[i] == z.chain[i].owner
  {
    seq(|z.chain|, i requires 0 <= i < |z.chain| => z.chain[i].owner)
  }

  ghost predicate ValidZone(z: Zone) {
    && SortedCircle(NameLess, Owners(z))
    && forall n | n in Owners(z) :: WellFormed(n) && EndsWith(n, z.apex)
  }

  /** A name exists if it owns records or has a descendant that does. */
  ghost predicate Exists(z: Zone, name: DnsName) {
    exists n :: n in Owners(z) && EndsWith(n, name)
  }

  ghost predicate StatesEntryAt(z: Zone, r: ResourceRecord, i: nat) {
    && i < |z.chain| && r.name == z.chain[i].owner
    && ParseNsec(r.rdata) == Ok(NsecRecord(NextOwner(Owners(z), i), z.chain[i].maps))
  }

  ghost predicate StatesEntry(z: Zone, r: ResourceRecord) {
    exists i: nat :: StatesEntryAt(z, r, i)
  }

  /** Every NSEC record of the set states an entry of the zone. */
  ghost predicate Truthful(z: Zone, rrset: seq<ResourceRecord>) {
    forall r | r in rrset && r.rtype == RecordType.Nsec :: StatesEntry(z, r)
  }

  // ---------------------------------------------------------------- what a covered name is

  /** The first NSEC record that covers the name. */
  function CoverOf(rrset: seq<ResourceRecord>, query: DnsName): Option<ResourceRecord> {
    if rrset == [] then None
    else if rrset[0].rtype == RecordType.Nsec && ParseNsec(rrset[0].rdata).Ok?
            && NsecCovers(rrset[0].name, ParseNsec(rrset[0].rdata).value.next, query) then Some(rrset[0])
    else CoverOf(rrset[1..], query)
  }

  lemma {:induction false} CoverOfCovers(rrset: seq<ResourceRecord>, query: DnsName)
    requires CoversIn(rrset, query) == Ok(true)
    ensures CoverOf(rrset, query).Some?
    ensures var r := CoverOf(rrset, query).value;
      && r in rrset && r.rtype == RecordType.Nsec && ParseNsec(r.rdata).Ok?
      && NsecCovers(r.name, ParseNsec(r.rdata).value.next, query)
    decreases |rrset|
  {
    hide NsecCovers, ParseNsec;
    if rrset[0].rtype != RecordType.Nsec || !NsecCovers(rrset[0].name, ParseNsec(rrset[0].rdata).value.next, query) {
      CoverOfCovers(rrset[1..], query);
    }
  }

  /** Where every NSEC record can be read, the answer is whether one of them, wherever it stands, covers the name. */
  lemma {:induction false} CoversInIff(rrset: seq<ResourceRecord>, query: DnsName)
    requires forall r | r in rrset && r.rtype == RecordType.Nsec :: ParseNsec(r.rdata).Ok?
    ensures CoversIn(rrset, query) == Ok(exists r ::
      r in rrset && r.rtype == RecordType.Nsec && NsecCovers(r.name, ParseNsec(r.rdata).value.next, query))
    decreases |rrset|
  {
    hide NsecCovers, ParseNsec;
    if rrset != [] {
      assert rrset == [rrset[0]] + rrset[1..];
      CoversInIff(rrset[1..], query);
    }
  }

  /** An NSEC record at the name without the type and without CNAME (5). */
  predicate DeniesAt(r: ResourceRecord, query: DnsName, qtype: RecordType) {
    && r.rtype == RecordType.Nsec && r.name == query && ParseNsec(r.rdata).Ok?
    && !HasType(ParseNsec(r.rdata).value.maps, qtype.Code()) && !HasType(ParseNsec(r.rdata).value.maps, 5)
  }

  /** And whether one of them denies the type at the name. */
  lemma {:induction false} LacksInIff(rrset: seq<ResourceRecord>, query: DnsName, qtype: RecordType)
    requires forall r | r in rrset && r.rtype == RecordType.Nsec && r.name == query :: ParseNsec(r.rdata).Ok?
    ensures LacksIn(rrset, query, qtype) == Ok(exists r :: r in rrset && DeniesAt(r, query, qtype))
    decreases |rrset|
  {
    hide ParseNsec, Lacks, DeniesAt;
    if rrset != [] {
      DeniesIff(rrset[0], query, qtype);
      assert rrset == [rrset[0]] + rrset[1..];
      LacksInIff(rrset[1..], query, qtype);
    }
  }

  lemma DeniesIff(r: ResourceRecord, query: DnsName, qtype: RecordType)
    ensures DeniesAt(r, query, qtype) ==> r.rtype == RecordType.Nsec && r.name == query && ParseNsec(r.rdata).Ok?
    ensures r.rtype == RecordType.Nsec && r.name == query && ParseNsec(r.rdata).Ok? ==>
      Lacks(ParseNsec(r.rdata).value, qtype) == Ok(DeniesAt(r, query, qtype))
  {
    hide ParseName, ValidBitmaps, HasType;
  }

  lemma CoverFound(z: Zone, rrset: seq<ResourceRecord>, query: DnsName) returns (i: nat)
    requires Truthful(z, rrset) && CoversIn(rrset, query) == Ok(true)
    ensures i < |z.chain| && NsecCovers(z.chain[i].owner, NextOwner(Owners(z), i), query)
  {
    hide NsecCovers, StatesEntry, ParseNsec, CoverOf, CoversIn;
    CoverOfCovers(rrset, query);
    i := EntryOf(z, CoverOf(rrset, query).value);
  }

  lemma EntryOf(z: Zone, r: ResourceRecord) returns (i: nat)
    requires StatesEntry(z, r)
    ensures i < |z.chain| && r.name == z.chain[i].owner
    ensures ParseNsec(r.rdata) == Ok(NsecRecord(NextOwner(Owners(z), i), z.chain[i].maps))
  {
    i :| StatesEntryAt(z, r, i);
  }

  /** A covered name owns nothing. */
  lemma CoveredIsNoOwner(z: Zone, i: nat, query: DnsName)
    requires ValidZone(z) && i < |z.chain| && NsecCovers(z.chain[i].owner, NextOwner(Owners(z), i), query)
    ensures query !in Owners(z)
  {
    hide NsecCovers;
    NsecChainCoversOnce(Owners(z), query);
  }

  lemma {:induction false} AncestorComesFirst(name: DnsName, parent: DnsName)
    requires EndsWith(name, parent) && name != parent
    ensures NameLess(parent, name)
    decreases |parent|
  {
    hide EndsWith, CompareBytes;
    EndsWithParts(name, parent);
    EndsWithParts(parent, name);
    if parent != [] {
      CompareBytesEqual(parent[|parent| - 1], name[|name| - 1]);
      SameParts(name, parent);
      AncestorComesFirst(name[..|name| - 1], parent[..|parent| - 1]);
    } else {
      NoneAfterRoot(name);
    }
  }

  lemma SameParts(a: DnsName, b: DnsName)
    requires a != [] && b != [] && a[|a| - 1] == b[|b| - 1] && a != b
    ensures a[..|a| - 1] != b[..|b| - 1]
  {
    assert a == a[..|a| - 1] + [a[|a| - 1]];
    assert b == b[..|b| - 1] + [b[|b| - 1]];
  }

  lemma NoneAfterRoot(name: DnsName)
    requires name != []
    ensures NameLess([], name)
  {
  }

  /**
   * A covered name can still exist, as an empty non-terminal: it does exactly when the next owner
   * of the covering record lies below it.
   */
  lemma CoveredNameExistsIff(z: Zone, i: nat, query: DnsName)
    requires ValidZone(z) && i < |z.chain| && NsecCovers(z.chain[i].owner, NextOwner(Owners(z), i), query)
    ensures Exists(z, query) <==> EndsWith(NextOwner(Owners(z), i), query)
  {
    var owners := Owners(z);
    var next := NextOwner(owners, i);
    if Exists(z, query) {
      var n :| n in owners && EndsWith(n, query);
      CoveredIsNoOwner(z, i, query);
      AncestorComesFirst(n, query);
      NextIsNoLater(owners, i, query, n);
      if next != n {
        SubtreeIsInterval(query, next, n);
      }
    } else if EndsWith(next, query) {
      assert next in owners;
    }
  }

  /** The next owner is the first one after the covered name, if any comes after it. */
  lemma NextIsNoLater(owners: seq<DnsName>, i: nat, query: DnsName, n: DnsName)
    requires SortedCircle(NameLess, owners) && i < |owners| && NsecCovers(owners[i], NextOwner(owners, i), query)
    requires n in owners && NameLess(query, n)
    ensures var next := NextOwner(owners, i); NameLess(query, next) && (next == n || NameLess(next, n))
  {
    NsecCoversIsCircular(owners[i], NextOwner(owners, i), query);
    NameLessIsStrictTotal();
    hide NameLess, NsecCovers;
    var k :| 0 <= k < |owners| && owners[k] == n;
    assert NameLess(owners[i], owners[k]) <==> i < k;
    if i + 1 < |owners| {
      assert NameLess(owners[i], owners[i + 1]);
      assert k > i + 1 ==> NameLess(owners[i + 1], owners[k]);
    } else {
      assert k < i ==> NameLess(owners[k], owners[i]);
      assert k > 0 ==> NameLess(owners[0], owners[k]);
    }
  }

  // ---------------------------------------------------------------- soundness, record by record

  /** A Secure range answer: the name owns nothing, and it exists only above the next owner. */
  lemma NameRangeIsSound(x: Context, z: Zone, query: DnsName, s: SignedSet) returns (i: nat)
    requires ValidZone(z) && Truthful(z, s.records)
    requires ValidateNameRange(x, query, s) == Ok(Secure)
    ensures query !in Owners(z)
    ensures i < |z.chain| && (Exists(z, query) <==> EndsWith(NextOwner(Owners(z), i), query))
  {
    hide ValidZone, Truthful, Accept, CoversIn, NsecCovers;
    i := CoverFound(z, s.records, query);
    CoveredIsNoOwner(z, i, query);
    CoveredNameExistsIff(z, i, query);
  }

  /**
   * A Secure name error: neither the name nor the wildcard below the given encloser owns anything,
   * and the name does not exist at all exactly when the covering record's next owner is not below it.
   */
  lemma NameErrorIsSound(x: Context, z: Zone, query: DnsName, encloser: DnsName, covering: SignedSet, wildcard: SignedSet)
    returns (i: nat)
    requires ValidZone(z) && Truthful(z, covering.records) && Truthful(z, wildcard.records) && WellFormed(query)
    requires ValidateNsecNameError(x, query, encloser, covering, wildcard) == Ok(Secure)
    ensures IsStrictSubdomain(query, encloser) && query !in Owners(z) && [WILDCARD] + encloser !in Owners(z)
    ensures i < |z.chain| && (Exists(z, query) <==> EndsWith(NextOwner(Owners(z), i), query))
  {
    hide ValidZone, Truthful, ValidateNameRange, WellFormed, WildcardChild;
    Nsec3Soundness.SuffixIsWellFormed(query, encloser);
    Nsec3Soundness.WildcardChildIs(encloser);
    i := NameRangeIsSound(x, z, query, covering);
    var j := NameRangeIsSound(x, z, [WILDCARD] + encloser, wildcard);
  }

  lemma {:induction false} LackingRecordOf(rrset: seq<ResourceRecord>, query: DnsName, qtype: RecordType) returns (r: ResourceRecord)
    requires LacksIn(rrset, query, qtype) == Ok(true)
    ensures r in rrset && r.rtype == RecordType.Nsec && r.name == query && ParseNsec(r.rdata).Ok?
    ensures Lacks(ParseNsec(r.rdata).value, qtype) == Ok(true)
    decreases |rrset|
  {
    hide ParseNsec, Lacks;
    if rrset[0].rtype == RecordType.Nsec && rrset[0].name == query && Lacks(ParseNsec(rrset[0].rdata).value, qtype) == Ok(true) {
      r := rrset[0];
    } else {
      r := LackingRecordOf(rrset[1..], query, qtype);
    }
  }

  lemma LackFound(z: Zone, rrset: seq<ResourceRecord>, query: DnsName, qtype: RecordType) returns (i: nat)
    requires Truthful(z, rrset) && LacksIn(rrset, query, qtype) == Ok(true)
    ensures i < |z.chain| && z.chain[i].owner == query
    ensures !HasType(z.chain[i].maps, qtype.Code()) && !HasType(z.chain[i].maps, Cname.Code())
  {
    hide StatesEntry, ParseNsec, HasType, ValidBitmaps, LacksIn, RecordType.Code;
    var r := LackingRecordOf(rrset, query, qtype);
    i := EntryOf(z, r);
  }

  /** A Secure no-data answer: the name owns records, but none of the type and no CNAME. */
  lemma NoDataIsSound(x: Context, z: Zone, query: DnsName, qtype: RecordType, s: SignedSet) returns (i: nat)
    requires Truthful(z, s.records) && ValidateNsecNoData(x, query, qtype, s) == Ok(Secure)
    ensures i < |z.chain| && z.chain[i].owner == query
    ensures !HasType(z.chain[i].maps, qtype.Code()) && !HasType(z.chain[i].maps, Cname.Code())
  {
    hide Truthful, Accept, LacksIn;
    i := LackFound(z, s.records, query, qtype);
  }

  /**
   * An empty non-terminal is covered: in the zone that owns the apex and a name two labels below
   * it, the range test accepts the name in between, which exists.
   */
  lemma EmptyNonTerminalIsCovered(apex: DnsName, middle: Label, leaf: Label, maps: seq<byte>)
    ensures var z := Zone(apex, [Entry(apex, maps), Entry([leaf, middle] + apex, maps)]); var query := [middle] + apex;
      SortedCircle(NameLess, Owners(z)) && NsecCovers(apex, NextOwner(Owners(z), 0), query) && Exists(z, query)
  {
    var z := Zone(apex, [Entry(apex, maps), Entry([leaf, middle] + apex, maps)]);
    var query, below := [middle] + apex, [leaf, middle] + apex;
    assert query[1..] == apex && below[1..] == query && below[2..] == apex;
    AncestorComesFirst(query, apex);
    AncestorComesFirst(below, query);
    AncestorComesFirst(below, apex);
    assert Owners(z) == [apex, below];
    assert below in Owners(z) && EndsWith(below, query);
  }
}
