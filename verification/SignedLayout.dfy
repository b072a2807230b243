/**
 * The canonical form of an RRset and the layout of its signed bytes (sections 3.1.8.1 and 6.3 of
 * RFC 4034; rust/crates/hns-dnssec/src/lib.rs), said octet by octet.
 */
module SignedLayout {
  import opened Prelude
  import opened WireName
  import opened WireMessage
  import opened Rdata
  import opened SignedData

  // ---------------------------------------------------------------- canonical order

  /** The canonical RDATA of every record, in the order of the records. */
  ghost predicate CanonicalForms(rrset: seq<ResourceRecord>, forms: seq<seq<byte>>) {
    |forms| == |rrset| && forall i | 0 <= i < |rrset| :: CanonicalRdata(rrset[i].rtype, rrset[i].rdata) == Ok(forms[i])
  }

  lemma {:induction false} MembersHaveForms(
    rtype: RecordType, class_: u16, owner: seq<byte>, labels: nat, rrset: seq<ResourceRecord>)
    requires MemberRdatas(rtype, class_, owner, labels, rrset).Ok?
    ensures CanonicalForms(rrset, MemberRdatas(rtype, class_, owner, labels, rrset).value)
    decreases |rrset|
  {
    hide CanonicalRdata, CanonicalOwner;
    if rrset != [] {
      MembersHaveForms(rtype, class_, owner, labels, rrset[..|rrset| - 1]);
    }
  }

  ghost predicate StrictlyOrdered(rdatas: seq<seq<byte>>) {
    forall i, j | 0 <= i < j < |rdatas| :: Precedes(rdatas[i], rdatas[j])
  }

  lemma SortedIsOrdered(rdatas: seq<seq<byte>>)
    requires Sorted(rdatas) && !HasNeighbours(rdatas)
    ensures StrictlyOrdered(rdatas)
  {
    hide AtMost, Precedes;
    forall i, j | 0 <= i < j < |rdatas|
      ensures Precedes(rdatas[i], rdatas[j])
    {
      AtMostIsTotalOrder(rdatas[i], rdatas[i + 1], rdatas[j]);
      assert rdatas[(i + 1) - 1] != rdatas[i + 1];
      DifferentPrecedes(rdatas[i], rdatas[j]);
    }
  }

  lemma DifferentPrecedes(a: seq<byte>, b: seq<byte>)
    requires AtMost(a, b)
    ensures a == b || Precedes(a, b)
  {
    CompareBytesEqual(a, b);
    CompareBytesIsPrecedence(a, b);
  }

  /** What is signed are the canonical forms of the records, each once, a prefix or the smaller octet first. */
  lemma CoveredIsOrdered(rrset: seq<ResourceRecord>, rrsig: RrsigRecord) returns (forms: seq<seq<byte>>)
    requires CoveredBy(rrset, rrsig).Ok?
    ensures CanonicalForms(rrset, forms) && multiset(CoveredBy(rrset, rrsig).value.rdatas) == multiset(forms)
    ensures StrictlyOrdered(CoveredBy(rrset, rrsig).value.rdatas)
  {
    hide MemberRdatas, CanonicalOwner, Sort, Sorted, CanonicalForms, StrictlyOrdered, HasNeighbours;
    var owner := CanonicalOwner(rrset[0].name, rrsig.labels).value;
    forms := MemberRdatas(rrset[0].rtype, rrset[0].class_, owner, rrsig.labels, rrset).value;
    MembersHaveForms(rrset[0].rtype, rrset[0].class_, owner, rrsig.labels, rrset);
    SortSorts(forms);
    SortedIsOrdered(Sort(forms));
  }

  // ---------------------------------------------------------------- which RRsets can be signed

  /** One type, one class, one signed owner, and canonical RDATA of at most 65535 octets. */
  ghost predicate Uniform(rrset: seq<ResourceRecord>, rrsig: RrsigRecord, forms: seq<seq<byte>>) {
    && rrset != [] && CanonicalForms(rrset, forms)
    && CanonicalOwner(rrset[0].name, rrsig.labels).Ok?
    && forall i | 0 <= i < |rrset| ::
         && rrset[i].rtype == rrsig.typeCovered && rrset[i].class_ == rrset[0].class_ && |forms[i]| <= 0xffff
         && CanonicalOwner(rrset[i].name, rrsig.labels) == CanonicalOwner(rrset[0].name, rrsig.labels)
  }

  lemma {:induction false} MembersIff(
    rtype: RecordType, class_: u16, owner: seq<byte>, labels: nat, rrset: seq<ResourceRecord>)
    ensures MemberRdatas(rtype, class_, owner, labels, rrset).Ok?
      <==> forall i | 0 <= i < |rrset| :: MemberRdata(rtype, class_, owner, labels, rrset[i]).Ok?
    decreases |rrset|
  {
    hide MemberRdata;
    if rrset != [] {
      MembersIff(rtype, class_, owner, labels, rrset[..|rrset| - 1]);
    }
  }

  /** Records with the same canonical RDATA are what makes an otherwise uniform RRset unfit. */
  lemma CoveredIff(rrset: seq<ResourceRecord>, rrsig: RrsigRecord)
    ensures CoveredBy(rrset, rrsig).Ok? <==> exists forms ::
      Uniform(rrset, rrsig, forms) && forall i, j | 0 <= i < j < |forms| :: forms[i] != forms[j]
  {
    hide MemberRdatas, CanonicalOwner, CanonicalRdata, Sort;
    if rrset != [] && rrset[0].rtype == rrsig.typeCovered && CanonicalOwner(rrset[0].name, rrsig.labels).Ok? {
      var rtype, class_ := rrset[0].rtype, rrset[0].class_;
      var owner := CanonicalOwner(rrset[0].name, rrsig.labels).value;
      MembersIff(rtype, class_, owner, rrsig.labels, rrset);
      if MemberRdatas(rtype, class_, owner, rrsig.labels, rrset).Ok? {
        var forms := MemberRdatas(rtype, class_, owner, rrsig.labels, rrset).value;
        MembersHaveForms(rtype, class_, owner, rrsig.labels, rrset);
        SortSorts(forms);
        DistinctIff(forms);
        FormsAreUnique(rrset, forms);
        assert Uniform(rrset, rrsig, forms);
      }
    }
  }

  lemma FormsAreUnique(rrset: seq<ResourceRecord>, forms: seq<seq<byte>>)
    requires CanonicalForms(rrset, forms)
    ensures forall others | CanonicalForms(rrset, others) :: others == forms
  {
    hide CanonicalRdata;
  }

  ghost predicate AllDistinct(s: seq<seq<byte>>) {
    forall i, j | 0 <= i < j < |s| :: s[i] != s[j]
  }

  /** Sorting brings equal elements next to each other. */
  lemma DistinctIff(s: seq<seq<byte>>)
    ensures !HasNeighbours(Sort(s)) <==> forall i, j | 0 <= i < j < |s| :: s[i] != s[j]
  {
    SortSorts(s);
    DistinctCounts(s);
    DistinctCounts(Sort(s));
    hide Sort, Sorted, AtMost;
    if !HasNeighbours(Sort(s)) {
      SortedIsOrdered(Sort(s));
      forall i, j | 0 <= i < j < |Sort(s)|
        ensures Sort(s)[i] != Sort(s)[j]
      {
        CompareBytesIsPrecedence(Sort(s)[i], Sort(s)[j]);
        CompareBytesEqual(Sort(s)[i], Sort(s)[j]);
      }
    }
  }

  lemma {:induction false} DistinctCounts(s: seq<seq<byte>>)
    ensures AllDistinct(s) <==> forall x :: multiset(s)[x] <= 1
  {
    if AllDistinct(s) {
      forall x
        ensures multiset(s)[x] <= 1
      {
        AtMostOnce(s, x);
      }
    } else {
      var i, j :| 0 <= i < j < |s| && s[i] == s[j];
      assert s == s[..i] + [s[i]] + s[i + 1..j] + [s[j]] + s[j + 1..];
      assert multiset(s)[s[i]] >= 2;
    }
  }

  lemma {:induction false} AtMostOnce(s: seq<seq<byte>>, x: seq<byte>)
    requires AllDistinct(s)
    ensures multiset(s)[x] <= 1
  {
    if s != [] {
      var front, last := s[..|s| - 1], s[|s| - 1];
      assert s == front + [last];
      AtMostOnce(front, x);
      assert last !in front;
    }
  }

  /** An RRset has signed bytes exactly from its inception to its expiration, both included, if it is fit to be signed. */
  lemma SignedIff(rrset: seq<ResourceRecord>, rrsig: RrsigRecord, now: nat)
    ensures SignedBytes(rrset, rrsig, now).Ok? <==> rrsig.inception <= now <= rrsig.expiration && CoveredBy(rrset, rrsig).Ok?
    ensures !(rrsig.inception <= now <= rrsig.expiration) ==>
      SignedBytes(rrset, rrsig, now) == Err(SignatureOutsideValidity)
  {
    hide CoveredBy, Body;
  }

  // ---------------------------------------------------------------- the layout

  /**
   * From `at` to `end`: the owner, two octets of type, two of class, four of TTL and two of length,
   * most significant first, and the RDATA.
   */
  ghost predicate RecordStands(
    data: seq<byte>, at: nat, end: nat, owner: seq<byte>, code: nat, class_: nat, ttl: nat, rdata: seq<byte>)
  {
    var i := at + |owner|;
    && end == i + 10 + |rdata| <= |data|
    && data[at..i] == owner
    && BigEndian(data[i..i + 2]) == code
    && BigEndian(data[i + 2..i + 4]) == class_
    && BigEndian(data[i + 4..i + 8]) == ttl
    && BigEndian(data[i + 8..i + 10]) == |rdata|
    && data[i + 10..end] == rdata
  }

  lemma FieldsStand(data: seq<byte>, at: nat, owner: seq<byte>, code: u16, class_: u16, ttl: u32, rdata: seq<byte>)
    requires |rdata| <= 0xffff
    requires At(data, at, owner + (U16Bytes(code) + (U16Bytes(class_) + (U32Bytes(ttl) + (U16Bytes(|rdata|) + rdata)))))
    ensures RecordStands(data, at, at + |owner| + 10 + |rdata|, owner, code, class_, ttl, rdata)
  {
    var i := at + |owner|;
    var size: u16 := |rdata|;
    Fields(data, at, owner, U16Bytes(code), U16Bytes(class_), U32Bytes(ttl), U16Bytes(size), rdata);
    hide At, U16Bytes, U32Bytes;
    NumberStands(data, i, code);
    NumberStands(data, i + 2, class_);
    LongNumberStands(data, i + 4, ttl);
    NumberStands(data, i + 8, size);
    Within(data, at, owner);
    Within(data, i + 10, rdata);
  }

  lemma Within(data: seq<byte>, at: nat, s: seq<byte>)
    requires At(data, at, s)
    ensures at + |s| <= |data| && data[at..at + |s|] == s
  {
  }

  lemma NumberStands(data: seq<byte>, i: nat, v: u16)
    requires At(data, i, U16Bytes(v))
    ensures i + 2 <= |data| && BigEndian(data[i..i + 2]) == v
  {
    ReadU16Inverts(data, i, v);
  }

  lemma LongNumberStands(data: seq<byte>, i: nat, v: u32)
    requires At(data, i, U32Bytes(v))
    ensures i + 4 <= |data| && BigEndian(data[i..i + 4]) == v
  {
    ReadU32Inverts(data, i, v);
  }

  /** Records one behind the other, from the first offset to the last. */
  ghost predicate RecordsStand(
    data: seq<byte>, offsets: seq<nat>, owner: seq<byte>, code: nat, class_: nat, ttl: nat, rdatas: seq<seq<byte>>)
  {
    && |offsets| == |rdatas| + 1
    && forall i | 0 <= i < |rdatas| :: RecordStands(data, offsets[i], offsets[i + 1], owner, code, class_, ttl, rdatas[i])
  }

  lemma {:induction false} BodyStands(
    data: seq<byte>, at: nat, owner: seq<byte>, rtype: RecordType, class_: u16, ttl: u32, rdatas: seq<seq<byte>>)
    returns (offsets: seq<nat>)
    requires Short(rdatas) && At(data, at, Body(owner, rtype, class_, ttl, rdatas))
    ensures RecordsStand(data, offsets, owner, rtype.Code(), class_, ttl, rdatas)
    ensures offsets[0] == at && offsets[|rdatas|] == at + |Body(owner, rtype, class_, ttl, rdatas)|
    decreases |rdatas|
  {
    hide At, RecordStands, RecordType.Code;
    if rdatas == [] {
      offsets := [at];
    } else {
      var first, rest := RecordWire(owner, rtype, class_, ttl, rdatas[0]), Body(owner, rtype, class_, ttl, rdatas[1..]);
      AtConcat(data, at, first, rest);
      FieldsStand(data, at, owner, rtype.Code(), class_, ttl, rdatas[0]);
      var behind := BodyStands(data, at + |first|, owner, rtype, class_, ttl, rdatas[1..]);
      offsets := [at] + behind;
      RecordSize(owner, rtype, class_, ttl, rdatas[0]);
      assert forall i | 0 < i < |rdatas| :: rdatas[1..][i - 1] == rdatas[i];
    }
  }

  lemma RecordSize(owner: seq<byte>, rtype: RecordType, class_: u16, ttl: u32, rdata: seq<byte>)
    requires |rdata| <= 0xffff
    ensures |RecordWire(owner, rtype, class_, ttl, rdata)| == |owner| + 10 + |rdata|
  {
  }

  /** The name that a record with so many signed labels is signed under. */
  function SignedOwner(name: DnsName, labels: nat): DnsName
    requires labels <= |name|
  {
    if labels == |name| then name else [[0x2a]] + name[|name| - labels..]
  }

  lemma SignedOwnerIs(name: DnsName, labels: nat)
    requires WellFormed(name) && labels <= |name|
    ensures OwnerName(name, labels) == SignedOwner(name, labels)
  {
    OwnerNameIsWellFormed(name, labels);
    if labels < |name| {
      StoredSuffix(name, labels);
      LowerStored(SignedOwner(name, labels));
    }
  }

  lemma StoredSuffix(name: DnsName, labels: nat)
    requires WellFormed(name) && labels < |name|
    ensures forall octets | octets in [[0x2a]] + name[|name| - labels..] :: IsStoredLabel(octets)
  {
    assert Lower([0x2a]) == [0x2a];
    hide Lower, IsValidLabel;
  }

  /**
   * The signed bytes: the signed part of the RRSIG, and then every record once, in canonical order,
   * under the signed owner, with the type and the original TTL of the RRSIG.
   */
  lemma SignedBytesLayout(rrset: seq<ResourceRecord>, rrsig: RrsigRecord, now: nat)
    returns (forms: seq<seq<byte>>, ordered: seq<seq<byte>>, offsets: seq<nat>)
    requires WellFormedNames(rrset) && SignedBytes(rrset, rrsig, now).Ok?
    ensures rrset != [] && rrsig.labels as nat <= |rrset[0].name| && Encodable(SignedOwner(rrset[0].name, rrsig.labels))
    ensures rrsig.inception <= now <= rrsig.expiration
    ensures CanonicalForms(rrset, forms) && multiset(ordered) == multiset(forms) && StrictlyOrdered(ordered)
    ensures var data := SignedBytes(rrset, rrsig, now).value;
      && At(data, 0, rrsig.signedRdata)
      && RecordsStand(data, offsets, Wire(SignedOwner(rrset[0].name, rrsig.labels)),
                      rrsig.typeCovered.Code(), rrset[0].class_, rrsig.originalTtl, ordered)
      && offsets[0] == |rrsig.signedRdata| && offsets[|ordered|] == |data|
  {
    CoveredOwner(rrset, rrsig);
    SignedOwnerIs(rrset[0].name, rrsig.labels);
    CoveredIsShort(rrset, rrsig);
    var covered := CoveredBy(rrset, rrsig).value;
    var body := Body(covered.owner, rrsig.typeCovered, covered.class_, rrsig.originalTtl, covered.rdatas);
    CoveredClass(rrset, rrsig);
    hide CoveredBy, Body, RecordType.Code, CanonicalForms, StrictlyOrdered, RecordsStand, OwnerName, SignedOwner, At, Wire;
    forms := CoveredIsOrdered(rrset, rrsig);
    ordered := covered.rdatas;
    var data := SignedBytes(rrset, rrsig, now).value;
    AtWhole(data);
    AtConcat(data, 0, rrsig.signedRdata, body);
    offsets := BodyStands(data, |rrsig.signedRdata|, covered.owner, rrsig.typeCovered, covered.class_, rrsig.originalTtl, ordered);
  }

  lemma CoveredClass(rrset: seq<ResourceRecord>, rrsig: RrsigRecord)
    requires CoveredBy(rrset, rrsig).Ok?
    ensures rrset != [] && CoveredBy(rrset, rrsig).value.class_ == rrset[0].class_
  {
    hide MemberRdatas, CanonicalOwner, Sort;
  }
}
