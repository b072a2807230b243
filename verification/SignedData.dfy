/**
 * The byte string that a signature covers (section 3.1.8.1 of RFC 4034;
 * rust/crates/hns-dnssec/src/lib.rs): it does not depend on the order or the TTLs of the records,
 * and it determines what was signed.
 */
module SignedData {
  import opened Prelude
  import opened WireName
  import opened WireMessage
  import opened Rdata

  // ---------------------------------------------------------------- canonical owner

  function LowerAll(name: DnsName): (r: DnsName)
    ensures |r| == |name|
  {
    seq(|name|, i requires 0 <= i < |name| => Lower(name[i]))
  }

  /** The owner as signed: with fewer signed labels than labels, the wildcard it was expanded from. */
  function OwnerName(owner: DnsName, labels: nat): DnsName
    requires labels <= |owner|
  {
    LowerAll(if labels < |owner| then [[0x2a]] + owner[|owner| - labels..] else owner)
  }

  function CanonicalOwner(owner: DnsName, labels: nat): Result<seq<byte>, DnssecError> {
    if labels > |owner| then Err(InvalidRrset) else Expect(EncodeName(OwnerName(owner, labels)), NameEncoding)
  }

  /** Appends the length and the lowered octets of each label. */
  method EncodeLabels(prefix: seq<byte>, name: DnsName) returns (r: Result<seq<byte>, DnssecError>)
    ensures r == match EncodeName(LowerAll(name))
                 case Ok(bytes) => Ok(prefix + bytes)
                 case Err(_) => Err(NameEncoding)
  {
    var out: seq<byte> := prefix;
    for i := 0 to |name|
      invariant forall k | 0 <= k < i :: |name[k]| <= MAX_LABEL_LEN
      invariant Encodable(LowerAll(name[i..])) ==>
        Encodable(LowerAll(name)) && prefix + Wire(LowerAll(name)) == out + Wire(LowerAll(name[i..]))
    {
      if |name[i]| > MAX_LABEL_LEN {
        assert |LowerAll(name)[i]| > MAX_LABEL_LEN;
        return Err(NameEncoding);
      }
      ghost var before := out;
      var length: byte := |name[i]|;
      out := out + [length] + Lower(name[i]);
      EncodeLabelStep(before, out, name, i);
    }
    assert LowerAll(name[|name|..]) == [];
    out := out + [0];
    return Ok(out);
  }

  lemma EncodeLabelStep(before: seq<byte>, out: seq<byte>, name: DnsName, i: nat)
    requires i < |name| && |name[i]| <= MAX_LABEL_LEN && out == before + [|name[i]|] + Lower(name[i])
    ensures Encodable(LowerAll(name[i + 1..])) ==>
      Encodable(LowerAll(name[i..])) && before + Wire(LowerAll(name[i..])) == out + Wire(LowerAll(name[i + 1..]))
  {
    var rest := LowerAll(name[i..]);
    assert rest[0] == Lower(name[i]) && rest[1..] == LowerAll(name[i + 1..]);
    if Encodable(LowerAll(name[i + 1..])) {
      assert forall k | 0 < k < |rest| :: rest[k] == rest[1..][k - 1];
      assert before + ([|rest[0]|] + rest[0] + Wire(rest[1..])) == out + Wire(rest[1..]);
    }
  }

  method CanonicalOwnerBytes(owner: DnsName, labels: nat) returns (r: Result<seq<byte>, DnssecError>)
    ensures r == CanonicalOwner(owner, labels)
  {
    hide Wire, LowerAll;
    if labels > |owner| {
      return Err(InvalidRrset);
    }
    if labels < |owner| {
      r := EncodeLabels([], [[0x2a]] + owner[|owner| - labels..]);
    } else {
      r := EncodeLabels([], owner);
    }
    if r.Ok? {
      assert r.value == EncodeName(OwnerName(owner, labels)).value;
    }
  }

  // ---------------------------------------------------------------- the records of an RRset

  /** The canonical RDATA of a record that agrees with the RRset's type, class and owner. */
  function MemberRdata(rtype: RecordType, class_: u16, owner: seq<byte>, labels: nat, r: ResourceRecord)
    : Result<seq<byte>, DnssecError>
  {
    if r.rtype != rtype || r.class_ != class_ then Err(InvalidRrset)
    else
      var its :- CanonicalOwner(r.name, labels);
      if its != owner then Err(InvalidRrset)
      else
        var rdata :- CanonicalRdata(r.rtype, r.rdata);
        if |rdata| > 0xffff then Err(InvalidRrset) else Ok(rdata)
  }

  function MemberRdatas(rtype: RecordType, class_: u16, owner: seq<byte>, labels: nat, rrset: seq<ResourceRecord>)
    : Result<seq<seq<byte>>, DnssecError>
  {
    if rrset == [] then Ok([])
    else
      var front :- MemberRdatas(rtype, class_, owner, labels, rrset[..|rrset| - 1]);
      var last :- MemberRdata(rtype, class_, owner, labels, rrset[|rrset| - 1]);
      Ok(front + [last])
  }

  // ---------------------------------------------------------------- sorting

  predicate AtMost(a: seq<byte>, b: seq<byte>) { CompareBytes(a, b) != Greater }

  function Insert(x: seq<byte>, s: seq<seq<byte>>): seq<seq<byte>> {
    if s == [] then [x] else if AtMost(x, s[0]) then [x] + s else [s[0]] + Insert(x, s[1..])
  }

  function Sort(s: seq<seq<byte>>): seq<seq<byte>> {
    if s == [] then [] else Insert(s[0], Sort(s[1..]))
  }

  ghost predicate Sorted(s: seq<seq<byte>>) {
    forall i, j | 0 <= i < j < |s| :: AtMost(s[i], s[j])
  }

  lemma AtMostIsTotalOrder(a: seq<byte>, b: seq<byte>, c: seq<byte>)
    ensures AtMost(a, b) || AtMost(b, a)
    ensures AtMost(a, b) && AtMost(b, a) ==> a == b
    ensures AtMost(a, b) && AtMost(b, c) ==> AtMost(a, c)
    ensures AtMost(a, a)
  {
    CompareBytesAntisymmetric(a, b);
    CompareBytesAntisymmetric(b, a);
    CompareBytesEqual(a, b);
    CompareBytesEqual(b, c);
    CompareBytesEqual(a, a);
    CompareBytesEqual(a, c);
    if CompareBytes(a, b) == Less && CompareBytes(b, c) == Less {
      CompareBytesTransitive(a, b, c);
    }
  }

  lemma {:induction false} InsertAdds(x: seq<byte>, s: seq<seq<byte>>)
    ensures multiset(Insert(x, s)) == multiset(s) + multiset{x}
    ensures forall y | y in Insert(x, s) :: y == x || y in s
  {
    hide AtMost;
    if s != [] {
      assert s == [s[0]] + s[1..];
      InsertAdds(x, s[1..]);
    }
  }

  lemma {:induction false} InsertSorts(x: seq<byte>, s: seq<seq<byte>>)
    requires Sorted(s)
    ensures Sorted(Insert(x, s))
  {
    hide AtMost;
    if s != [] {
      AtMostIsTotalOrder(x, s[0], s[0]);
      if AtMost(x, s[0]) {
        forall j | 0 <= j < |s|
          ensures AtMost(x, s[j])
        {
          AtMostIsTotalOrder(x, s[0], s[j]);
        }
      } else {
        var rest := Insert(x, s[1..]);
        InsertSorts(x, s[1..]);
        InsertAdds(x, s[1..]);
        forall j | 0 <= j < |rest|
          ensures AtMost(s[0], rest[j])
        {
          assert rest[j] in rest;
        }
        assert Insert(x, s) == [s[0]] + rest;
      }
    }
  }

  lemma {:induction false} SortSorts(s: seq<seq<byte>>)
    ensures Sorted(Sort(s)) && multiset(Sort(s)) == multiset(s)
  {
    if s != [] {
      SortSorts(s[1..]);
      InsertSorts(s[0], Sort(s[1..]));
      InsertAdds(s[0], Sort(s[1..]));
      assert s == [s[0]] + s[1..];
    }
  }

  /** The least element of a sorted list comes first. */
  lemma LeastIsFirst(a: seq<seq<byte>>, b: seq<seq<byte>>)
    requires Sorted(a) && Sorted(b) && multiset(a) == multiset(b) && a != [] && b != []
    ensures a[0] == b[0]
  {
    hide AtMost;
    assert a[0] in multiset(b) && b[0] in multiset(a);
    var i :| 0 <= i < |b| && b[i] == a[0];
    var j :| 0 <= j < |a| && a[j] == b[0];
    AtMostIsTotalOrder(a[0], b[0], a[0]);
  }

  lemma DropFirst(a: seq<seq<byte>>)
    requires a != []
    ensures multiset(a) == multiset{a[0]} + multiset(a[1..])
  {
    assert a == [a[0]] + a[1..];
  }

  lemma {:induction false} SortedIsUnique(a: seq<seq<byte>>, b: seq<seq<byte>>)
    requires Sorted(a) && Sorted(b) && multiset(a) == multiset(b)
    ensures a == b
  {
    SameElements(a, b);
    if a != [] {
      LeastIsFirst(a, b);
      DropFirst(a);
      DropFirst(b);
      assert multiset(a[1..]) == multiset(b[1..]) by { Cancel(a[0], a[1..], b[1..]); }
      SortedIsUnique(a[1..], b[1..]);
      assert a == [a[0]] + a[1..] && b == [b[0]] + b[1..];
    }
  }

  lemma Cancel<T>(x: T, a: seq<T>, b: seq<T>)
    requires multiset{x} + multiset(a) == multiset{x} + multiset(b)
    ensures multiset(a) == multiset(b)
  {
    assert multiset(a) == multiset{x} + multiset(a) - multiset{x};
    assert multiset(b) == multiset{x} + multiset(b) - multiset{x};
  }

  // ---------------------------------------------------------------- signed data

  function RecordWire(owner: seq<byte>, rtype: RecordType, class_: u16, ttl: u32, rdata: seq<byte>): seq<byte>
    requires |rdata| <= 0xffff
  {
    owner + (U16Bytes(rtype.Code()) + (U16Bytes(class_) + (U32Bytes(ttl) + (U16Bytes(|rdata|) + rdata))))
  }

  predicate Short(rdatas: seq<seq<byte>>) {
    forall i | 0 <= i < |rdatas| :: |rdatas[i]| <= 0xffff
  }

  function Body(owner: seq<byte>, rtype: RecordType, class_: u16, ttl: u32, rdatas: seq<seq<byte>>): seq<byte>
    requires Short(rdatas)
  {
    if rdatas == [] then []
    else RecordWire(owner, rtype, class_, ttl, rdatas[0]) + Body(owner, rtype, class_, ttl, rdatas[1..])
  }

  predicate HasNeighbours(s: seq<seq<byte>>) {
    exists i :: 0 < i < |s| && s[i - 1] == s[i]
  }

  /** What is signed, apart from the RRSIG's own fields: owner, class and the sorted canonical RDATA. */
  datatype Covered = Covered(owner: seq<byte>, class_: u16, rdatas: seq<seq<byte>>)

  function CoveredBy(rrset: seq<ResourceRecord>, rrsig: RrsigRecord): Result<Covered, DnssecError> {
    if rrset == [] || rrset[0].rtype != rrsig.typeCovered then Err(InvalidRrset)
    else
      var owner :- CanonicalOwner(rrset[0].name, rrsig.labels);
      var rdatas :- MemberRdatas(rrset[0].rtype, rrset[0].class_, owner, rrsig.labels, rrset);
      if HasNeighbours(Sort(rdatas)) then Err(InvalidRrset)
      else Ok(Covered(owner, rrset[0].class_, Sort(rdatas)))
  }

  predicate ValidAt(rrsig: RrsigRecord, now: nat) {
    rrsig.inception <= now <= rrsig.expiration
  }

  function SignedBytes(rrset: seq<ResourceRecord>, rrsig: RrsigRecord, now: nat): Result<seq<byte>, DnssecError> {
    if !ValidAt(rrsig, now) then Err(SignatureOutsideValidity)
    else
      var covered :- CoveredBy(rrset, rrsig);
      CoveredIsShort(rrset, rrsig);
      Ok(rrsig.signedRdata + Body(covered.owner, rrsig.typeCovered, covered.class_, rrsig.originalTtl, covered.rdatas))
  }

  lemma {:induction false} MemberRdatasShort(rtype: RecordType, class_: u16, owner: seq<byte>, labels: nat, rrset: seq<ResourceRecord>)
    requires MemberRdatas(rtype, class_, owner, labels, rrset).Ok?
    ensures var ds := MemberRdatas(rtype, class_, owner, labels, rrset).value; |ds| == |rrset| && Short(ds)
  {
    hide CanonicalRdata, CanonicalOwner;
    if rrset != [] {
      MemberRdatasShort(rtype, class_, owner, labels, rrset[..|rrset| - 1]);
    }
  }

  lemma CoveredIsShort(rrset: seq<ResourceRecord>, rrsig: RrsigRecord)
    requires CoveredBy(rrset, rrsig).Ok?
    ensures Short(CoveredBy(rrset, rrsig).value.rdatas) && CoveredBy(rrset, rrsig).value.rdatas != []
  {
    hide MemberRdatas, CanonicalOwner, Sort;
    var owner := CanonicalOwner(rrset[0].name, rrsig.labels).value;
    MemberRdatasShort(rrset[0].rtype, rrset[0].class_, owner, rrsig.labels, rrset);
    var ds := MemberRdatas(rrset[0].rtype, rrset[0].class_, owner, rrsig.labels, rrset).value;
    SortSorts(ds);
    SameElements(ds, Sort(ds));
    forall i | 0 <= i < |Sort(ds)|
      ensures |Sort(ds)[i]| <= 0xffff
    {
      assert Sort(ds)[i] in ds;
    }
  }

  lemma SameElements(a: seq<seq<byte>>, b: seq<seq<byte>>)
    requires multiset(a) == multiset(b)
    ensures |a| == |b| && forall x :: x in a <==> x in b
  {
    assert |multiset(a)| == |a| && |multiset(b)| == |b|;
    forall x
      ensures x in a <==> x in b
    {
      assert x in a <==> x in multiset(a);
      assert x in b <==> x in multiset(b);
    }
  }

  // ---------------------------------------------------------------- order and TTLs do not matter

  lemma {:induction false} MemberRdatasConcat(
    rtype: RecordType, class_: u16, owner: seq<byte>, labels: nat, a: seq<ResourceRecord>, b: seq<ResourceRecord>)
    ensures var f := (s: seq<ResourceRecord>) => MemberRdatas(rtype, class_, owner, labels, s);
      && (f(a + b).Ok? <==> f(a).Ok? && f(b).Ok?)
      && (f(a + b).Ok? ==> f(a + b).value == f(a).value + f(b).value)
    decreases |b|
  {
    hide MemberRdata;
    if b == [] {
      assert a + b == a;
    } else {
      var n := |b| - 1;
      assert (a + b)[..|a + b| - 1] == a + b[..n];
      MemberRdatasConcat(rtype, class_, owner, labels, a, b[..n]);
    }
  }

  /** Taking one record out of an RRset takes its RDATA out of the list. */
  lemma MemberRdatasWithout(
    rtype: RecordType, class_: u16, owner: seq<byte>, labels: nat,
    front: seq<ResourceRecord>, x: ResourceRecord, back: seq<ResourceRecord>)
    ensures var f := (s: seq<ResourceRecord>) => MemberRdatas(rtype, class_, owner, labels, s);
      var x' := MemberRdata(rtype, class_, owner, labels, x);
      && (f(front + [x] + back).Ok? <==> f(front + back).Ok? && x'.Ok?)
      && (f(front + [x] + back).Ok? ==>
            multiset(f(front + [x] + back).value) == multiset(f(front + back).value) + multiset{x'.value})
  {
    MemberRdatasConcat(rtype, class_, owner, labels, front, back);
    MemberRdatasConcat(rtype, class_, owner, labels, front + [x], back);
    MemberRdatasConcat(rtype, class_, owner, labels, front, [x]);
    OneMember(rtype, class_, owner, labels, x);
    hide MemberRdata, MemberRdatas;
    var f := (s: seq<ResourceRecord>) => MemberRdatas(rtype, class_, owner, labels, s);
    if f(front + [x] + back).Ok? {
      PickOut(f(front).value, MemberRdata(rtype, class_, owner, labels, x).value, f(back).value);
    }
  }

  lemma OneMember(rtype: RecordType, class_: u16, owner: seq<byte>, labels: nat, x: ResourceRecord)
    ensures var x' := MemberRdata(rtype, class_, owner, labels, x);
      MemberRdatas(rtype, class_, owner, labels, [x]) == if x'.Ok? then Ok([x'.value]) else Err(x'.error)
  {
    hide MemberRdata;
    assert [x][..0] == [] && MemberRdatas(rtype, class_, owner, labels, []) == Ok([]);
    if MemberRdata(rtype, class_, owner, labels, x).Ok? {
      assert [] + [MemberRdata(rtype, class_, owner, labels, x).value] == [MemberRdata(rtype, class_, owner, labels, x).value];
    }
  }

  lemma {:induction false} MemberRdatasPermuted(
    rtype: RecordType, class_: u16, owner: seq<byte>, labels: nat, a: seq<ResourceRecord>, b: seq<ResourceRecord>)
    requires multiset(a) == multiset(b) && MemberRdatas(rtype, class_, owner, labels, a).Ok?
    ensures MemberRdatas(rtype, class_, owner, labels, b).Ok?
    ensures multiset(MemberRdatas(rtype, class_, owner, labels, b).value)
         == multiset(MemberRdatas(rtype, class_, owner, labels, a).value)
    decreases |a|
  {
    hide MemberRdata, MemberRdatas;
    if a == [] {
      assert |multiset(b)| == |b|;
      assert b == a;
    } else {
      var n := |a| - 1;
      var front, back := Matching(a, b);
      assert a == a[..n] + [a[n]] + [] && a[..n] + [] == a[..n];
      MemberRdatasWithout(rtype, class_, owner, labels, a[..n], a[n], []);
      MemberRdatasWithout(rtype, class_, owner, labels, front, a[n], back);
      MemberRdatasPermuted(rtype, class_, owner, labels, a[..n], front + back);
    }
  }

  /** Where the last element of one list stands in a permutation of it. */
  lemma Matching<T>(a: seq<T>, b: seq<T>) returns (front: seq<T>, back: seq<T>)
    requires a != [] && multiset(a) == multiset(b)
    ensures b == front + [a[|a| - 1]] + back && multiset(a[..|a| - 1]) == multiset(front + back)
  {
    var n, x := |a| - 1, a[|a| - 1];
    assert x in multiset(b);
    var k :| 0 <= k < |b| && b[k] == x;
    front, back := b[..k], b[k + 1..];
    assert a == a[..n] + [x] && b == front + [x] + back;
    PickOut(a[..n], x, []);
    PickOut(front, x, back);
    assert a[..n] + [] == a[..n] && a[..n] + [x] + [] == a;
    Cancel(x, a[..n], front + back);
  }

  lemma PickOut<T>(front: seq<T>, x: T, back: seq<T>)
    ensures multiset(front + [x] + back) == multiset{x} + multiset(front + back)
  {
  }

  lemma {:induction false} MemberIsRead(
    rtype: RecordType, class_: u16, owner: seq<byte>, labels: nat, rrset: seq<ResourceRecord>, r: ResourceRecord)
    requires MemberRdatas(rtype, class_, owner, labels, rrset).Ok? && r in rrset
    ensures MemberRdata(rtype, class_, owner, labels, r).Ok?
    ensures MemberRdata(rtype, class_, owner, labels, r).value in MemberRdatas(rtype, class_, owner, labels, rrset).value
    decreases |rrset|
  {
    hide MemberRdata;
    var n := |rrset| - 1;
    assert rrset == rrset[..n] + [rrset[n]];
    if r != rrset[n] {
      MemberIsRead(rtype, class_, owner, labels, rrset[..n], r);
    }
  }

  lemma MembersAgree(
    rtype: RecordType, class_: u16, owner: seq<byte>, labels: nat, rrset: seq<ResourceRecord>, r: ResourceRecord)
    requires MemberRdatas(rtype, class_, owner, labels, rrset).Ok? && r in rrset
    ensures r.rtype == rtype && r.class_ == class_ && CanonicalOwner(r.name, labels) == Ok(owner)
    ensures MemberRdata(rtype, class_, owner, labels, r).Ok?
    ensures MemberRdata(rtype, class_, owner, labels, r).value in MemberRdatas(rtype, class_, owner, labels, rrset).value
  {
    MemberIsRead(rtype, class_, owner, labels, rrset, r);
    hide CanonicalRdata, CanonicalOwner, MemberRdatas;
  }

  /** Signed data succeeds, with the same bytes, for every permutation of an RRset. */
  lemma OrderDoesNotMatter(a: seq<ResourceRecord>, b: seq<ResourceRecord>, rrsig: RrsigRecord, now: nat)
    requires multiset(a) == multiset(b)
    ensures CoveredBy(a, rrsig).Ok? ==> CoveredBy(b, rrsig) == CoveredBy(a, rrsig)
    ensures SignedBytes(a, rrsig, now).Ok? ==> SignedBytes(b, rrsig, now) == SignedBytes(a, rrsig, now)
  {
    hide MemberRdatas, MemberRdata, CanonicalOwner, Sort, Body;
    if CoveredBy(a, rrsig).Ok? {
      assert |multiset(a)| == |a| && |multiset(b)| == |b|;
      assert b[0] in multiset(a);
      var owner := CanonicalOwner(a[0].name, rrsig.labels).value;
      MembersAgree(a[0].rtype, a[0].class_, owner, rrsig.labels, a, b[0]);
      MemberRdatasPermuted(a[0].rtype, a[0].class_, owner, rrsig.labels, a, b);
      var x := MemberRdatas(a[0].rtype, a[0].class_, owner, rrsig.labels, a).value;
      var y := MemberRdatas(a[0].rtype, a[0].class_, owner, rrsig.labels, b).value;
      SortSorts(x);
      SortSorts(y);
      SortedIsUnique(Sort(x), Sort(y));
    }
  }

  ghost predicate SameButTtls(a: seq<ResourceRecord>, b: seq<ResourceRecord>) {
    |a| == |b| && forall i | 0 <= i < |a| :: b[i] == a[i].(ttl := b[i].ttl)
  }

  lemma {:induction false} MemberRdatasIgnoreTtls(
    rtype: RecordType, class_: u16, owner: seq<byte>, labels: nat, a: seq<ResourceRecord>, b: seq<ResourceRecord>)
    requires SameButTtls(a, b)
    ensures MemberRdatas(rtype, class_, owner, labels, a) == MemberRdatas(rtype, class_, owner, labels, b)
    decreases |a|
  {
    if a != [] {
      MemberRdatasIgnoreTtls(rtype, class_, owner, labels, a[..|a| - 1], b[..|b| - 1]);
    }
  }

  /** The records' own TTLs never show, in the bytes or in the error. */
  lemma TtlsDoNotMatter(a: seq<ResourceRecord>, b: seq<ResourceRecord>, rrsig: RrsigRecord, now: nat)
    requires SameButTtls(a, b)
    ensures SignedBytes(a, rrsig, now) == SignedBytes(b, rrsig, now)
  {
    hide MemberRdatas, CanonicalOwner, Sort, Body;
    if a != [] {
      var owner := CanonicalOwner(a[0].name, rrsig.labels);
      if owner.Ok? {
        MemberRdatasIgnoreTtls(a[0].rtype, a[0].class_, owner.value, rrsig.labels, a, b);
      }
    }
  }

  // ---------------------------------------------------------------- the bytes determine what is signed

  lemma OwnerNameIsWellFormed(owner: DnsName, labels: nat)
    requires WellFormed(owner) && labels <= |owner|
    ensures WellFormed(OwnerName(owner, labels))
    ensures labels == |owner| ==> OwnerName(owner, labels) == owner
    ensures labels < |owner| ==> OwnerName(owner, labels)[0] == [0x2a]
  {
    var kept := owner[|owner| - labels..];
    if labels < |owner| {
      var front := owner[..|owner| - labels];
      assert owner == front + kept && front[|front| - 1] == owner[|front| - 1];
      StoredParts(front, kept);
      hide WellFormed, IsStoredLabel, LabelsSize, LowerAll;
      OneLabelSize([0x2a]);
      SizeOfPrefix([[0x2a]], kept);
      SizeOfPrefix(front, kept);
      SizeOfPrefix(front[..|front| - 1], [front[|front| - 1]]);
      OneLabelSize(front[|front| - 1]);
      assert front == front[..|front| - 1] + [front[|front| - 1]];
      assert ([[0x2a]] + kept)[0] == [0x2a];
    } else {
      LowerStored(owner);
    }
  }

  lemma LowerStored(name: DnsName)
    requires forall i | 0 <= i < |name| :: IsStoredLabel(name[i])
    ensures LowerAll(name) == name
  {
  }

  lemma StoredParts(front: DnsName, kept: DnsName)
    requires WellFormed(front + kept) && front != []
    ensures forall i | 0 <= i < |[[0x2a]] + kept| :: IsStoredLabel(([[0x2a]] + kept)[i])
    ensures |front[|front| - 1]| >= 1 && LowerAll([[0x2a]] + kept) == [[0x2a]] + kept
    ensures LabelsSize(front + kept) <= MAX_NAME_LEN + 1
  {
    hide LabelsSize;
    assert Lower([0x2a]) == [0x2a];
    hide Lower, IsValidLabel;
    assert (front + kept)[|front| - 1] == front[|front| - 1];
    forall i | 0 <= i < |kept|
      ensures IsStoredLabel(kept[i])
    {
      assert (front + kept)[|front| + i] == kept[i];
    }
    LowerStored([[0x2a]] + kept);
  }

  lemma OneLabelSize(octets: Label)
    ensures LabelsSize([octets]) == |octets| + 1
  {
    assert [octets][..0] == [];
    assert LabelsSize([octets][..0]) == 0;
  }

  /** The fields that the signed part of a parsed RRSIG spells out. */
  ghost predicate WellFormedRrsig(s: RrsigRecord) {
    && |s.signedRdata| > 18
    && WellFormed(s.signerName) && EncodeName(s.signerName) == Ok(s.signedRdata[18..])
    && s.typeCovered == RecordType.FromCode(ReadU16(s.signedRdata, 0))
    && s.labels == s.signedRdata[3]
    && s.originalTtl == ReadU32(s.signedRdata, 4)
  }

  lemma ParsedRrsigIsWellFormed(rdata: seq<byte>)
    requires ParseRrsig(rdata).Ok?
    ensures WellFormedRrsig(ParseRrsig(rdata).value)
  {
    ParseNameIsSound(rdata, 18);
    hide ParseName, WellFormed, Wire;
    var s := ParseRrsig(rdata).value;
    assert s.signedRdata[..18] == rdata[..18];
    assert s.signedRdata[0..2] == rdata[..18][0..2] == rdata[0..2];
    assert s.signedRdata[4..8] == rdata[..18][4..8] == rdata[4..8];
  }

  /** Two RRSIG prefixes of one string are the same prefix. */
  lemma PrefixIsUnambiguous(data: seq<byte>, s1: RrsigRecord, s2: RrsigRecord)
    requires WellFormedRrsig(s1) && WellFormedRrsig(s2)
    requires At(data, 0, s1.signedRdata) && At(data, 0, s2.signedRdata)
    ensures s1.signedRdata == s2.signedRdata
    ensures s1.typeCovered == s2.typeCovered && s1.labels == s2.labels && s1.originalTtl == s2.originalTtl
    ensures s1.signerName == s2.signerName
  {
    var h1, t1 := s1.signedRdata[..18], s1.signedRdata[18..];
    var h2, t2 := s2.signedRdata[..18], s2.signedRdata[18..];
    assert s1.signedRdata == h1 + t1 && s2.signedRdata == h2 + t2;
    AtConcat(data, 0, h1, t1);
    AtConcat(data, 0, h2, t2);
    hide WellFormed, Wire;
    WellFormedIsEncodable(s1.signerName);
    WellFormedIsEncodable(s2.signerName);
    WireIsPrefixFree(s1.signerName, s2.signerName, data, 18);
  }

  lemma U16IsUnambiguous(data: seq<byte>, i: nat, a: u16, b: u16)
    requires At(data, i, U16Bytes(a)) && At(data, i, U16Bytes(b))
    ensures a == b
  {
    hide At, U16Bytes;
    ReadU16Inverts(data, i, a);
    ReadU16Inverts(data, i, b);
  }

  /** One signed record read off a position in two ways is the same record. */
  lemma RecordIsUnambiguous(
    data: seq<byte>, i: nat, n1: DnsName, n2: DnsName, rtype: RecordType, c1: u16, c2: u16, ttl: u32,
    d1: seq<byte>, d2: seq<byte>)
    requires WellFormed(n1) && WellFormed(n2) && Encodable(n1) && Encodable(n2)
    requires |d1| <= 0xffff && |d2| <= 0xffff
    requires At(data, i, RecordWire(Wire(n1), rtype, c1, ttl, d1)) && At(data, i, RecordWire(Wire(n2), rtype, c2, ttl, d2))
    ensures n1 == n2 && c1 == c2 && d1 == d2
  {
    var w1, w2 := Wire(n1), Wire(n2);
    hide *;
    RecordFields(data, i, w1, rtype, c1, ttl, d1);
    RecordFields(data, i, w2, rtype, c2, ttl, d2);
    WireIsPrefixFree(n1, n2, data, i);
    U16IsUnambiguous(data, i + |w1| + 2, c1, c2);
    U16IsUnambiguous(data, i + |w1| + 8, |d1|, |d2|);
    SameStand(data, i + |w1| + 10, d1, d2);
  }

  lemma RecordFields(data: seq<byte>, i: nat, w: seq<byte>, rtype: RecordType, class_: u16, ttl: u32, d: seq<byte>)
    requires |d| <= 0xffff && At(data, i, RecordWire(w, rtype, class_, ttl, d))
    ensures At(data, i, w) && At(data, i + |w| + 2, U16Bytes(class_))
    ensures At(data, i + |w| + 8, U16Bytes(|d|)) && At(data, i + |w| + 10, d)
  {
    Fields(data, i, w, U16Bytes(rtype.Code()), U16Bytes(class_), U32Bytes(ttl), U16Bytes(|d|), d);
    hide At;
  }

  lemma SameStand(data: seq<byte>, i: nat, a: seq<byte>, b: seq<byte>)
    requires At(data, i, a) && At(data, i, b) && |a| == |b|
    ensures a == b
  {
  }

  lemma Fields(data: seq<byte>, i: nat, a: seq<byte>, b: seq<byte>, c: seq<byte>, d: seq<byte>, e: seq<byte>, f: seq<byte>)
    requires At(data, i, a + (b + (c + (d + (e + f)))))
    requires |b| == |c| == |e| == 2 && |d| == 4
    ensures At(data, i, a) && At(data, i + |a|, b) && At(data, i + |a| + 2, c) && At(data, i + |a| + 4, d)
    ensures At(data, i + |a| + 8, e) && At(data, i + |a| + 10, f)
  {
    hide At;
    AtConcat(data, i, a, b + (c + (d + (e + f))));
    AtConcat(data, i + |a|, b, c + (d + (e + f)));
    AtConcat(data, i + |a| + 2, c, d + (e + f));
    AtConcat(data, i + |a| + 4, d, e + f);
    AtConcat(data, i + |a| + 8, e, f);
  }

  lemma {:induction false} BodyIsUnambiguous(
    data: seq<byte>, i: nat, n1: DnsName, n2: DnsName, rtype: RecordType, c1: u16, c2: u16, ttl: u32,
    s1: seq<seq<byte>>, s2: seq<seq<byte>>)
    requires WellFormed(n1) && WellFormed(n2) && Encodable(n1) && Encodable(n2) && Short(s1) && Short(s2)
    requires At(data, i, Body(Wire(n1), rtype, c1, ttl, s1)) && i + |Body(Wire(n1), rtype, c1, ttl, s1)| == |data|
    requires At(data, i, Body(Wire(n2), rtype, c2, ttl, s2)) && i + |Body(Wire(n2), rtype, c2, ttl, s2)| == |data|
    ensures s1 == s2
    ensures s1 != [] ==> n1 == n2 && c1 == c2
    decreases |s1|
  {
    var w1, w2 := Wire(n1), Wire(n2);
    if s1 != [] { BodySplits(data, i, w1, rtype, c1, ttl, s1); }
    if s2 != [] { BodySplits(data, i, w2, rtype, c2, ttl, s2); }
    if s1 != [] && s2 != [] {
      hide At, RecordWire, Wire, WellFormed, Encodable, Body;
      var r1 := RecordWire(w1, rtype, c1, ttl, s1[0]);
      RecordIsUnambiguous(data, i, n1, n2, rtype, c1, c2, ttl, s1[0], s2[0]);
      BodyIsUnambiguous(data, i + |r1|, n1, n2, rtype, c1, c2, ttl, s1[1..], s2[1..]);
      assert s1 == [s1[0]] + s1[1..] && s2 == [s2[0]] + s2[1..];
    } else {
      hide At, RecordWire, Wire, WellFormed;
    }
  }

  lemma BodySplits(data: seq<byte>, i: nat, w: seq<byte>, rtype: RecordType, class_: u16, ttl: u32, s: seq<seq<byte>>)
    requires s != [] && Short(s) && At(data, i, Body(w, rtype, class_, ttl, s)) && i + |Body(w, rtype, class_, ttl, s)| == |data|
    ensures var r := RecordWire(w, rtype, class_, ttl, s[0]); var rest := Body(w, rtype, class_, ttl, s[1..]);
      |r| >= 10 && i < |data| && At(data, i, r) && At(data, i + |r|, rest) && i + |r| + |rest| == |data|
  {
    RecordIsNonempty(w, rtype, class_, ttl, s[0]);
    hide At, RecordWire;
    AtConcat(data, i, RecordWire(w, rtype, class_, ttl, s[0]), Body(w, rtype, class_, ttl, s[1..]));
  }

  lemma RecordIsNonempty(owner: seq<byte>, rtype: RecordType, class_: u16, ttl: u32, rdata: seq<byte>)
    requires |rdata| <= 0xffff
    ensures |RecordWire(owner, rtype, class_, ttl, rdata)| >= 10
  {
  }

  ghost predicate WellFormedNames(rrset: seq<ResourceRecord>) {
    forall i | 0 <= i < |rrset| :: WellFormed(rrset[i].name)
  }

  lemma CoveredOwner(rrset: seq<ResourceRecord>, rrsig: RrsigRecord)
    requires WellFormedNames(rrset) && CoveredBy(rrset, rrsig).Ok?
    ensures rrset != [] && rrsig.labels as nat <= |rrset[0].name| && rrset[0].rtype == rrsig.typeCovered
    ensures var n := OwnerName(rrset[0].name, rrsig.labels);
      WellFormed(n) && Encodable(n) && CoveredBy(rrset, rrsig).value.owner == Wire(n)
  {
    hide MemberRdatas, Sort, Wire, LabelsSize;
    OwnerNameIsWellFormed(rrset[0].name, rrsig.labels);
  }

  /**
   * Signed data is unambiguous. For well-formed names and parsed RRSIGs, two successful signed
   * data are the same bytes exactly when the RRSIGs agree in their signed part and the RRsets
   * agree in canonical owner, class and sorted canonical RDATA.
   */
  lemma SignedBytesDetermineTheRrset(
    a: seq<ResourceRecord>, s1: RrsigRecord, now1: nat, b: seq<ResourceRecord>, s2: RrsigRecord, now2: nat)
    requires WellFormedNames(a) && WellFormedNames(b) && WellFormedRrsig(s1) && WellFormedRrsig(s2)
    requires SignedBytes(a, s1, now1).Ok? && SignedBytes(b, s2, now2).Ok?
    ensures SignedBytes(a, s1, now1) == SignedBytes(b, s2, now2)
      <==> s1.signedRdata == s2.signedRdata && CoveredBy(a, s1) == CoveredBy(b, s2)
  {
    hide CoveredBy, Body, WellFormedRrsig, WellFormedNames;
    var x, y := CoveredBy(a, s1).value, CoveredBy(b, s2).value;
    CoveredIsShort(a, s1);
    CoveredIsShort(b, s2);
    if s1.signedRdata == s2.signedRdata && x == y {
      AtWhole(s1.signedRdata);
      PrefixIsUnambiguous(s1.signedRdata, s1, s2);
    }
    if SignedBytes(a, s1, now1) == SignedBytes(b, s2, now2) {
      var data := SignedBytes(a, s1, now1).value;
      var body1 := Body(x.owner, s1.typeCovered, x.class_, s1.originalTtl, x.rdatas);
      var body2 := Body(y.owner, s2.typeCovered, y.class_, s2.originalTtl, y.rdatas);
      hide At;
      AtWhole(data);
      AtConcat(data, 0, s1.signedRdata, body1);
      AtConcat(data, 0, s2.signedRdata, body2);
      PrefixIsUnambiguous(data, s1, s2);
      CoveredOwner(a, s1);
      CoveredOwner(b, s2);
      BodyIsUnambiguous(data, |s1.signedRdata|, OwnerName(a[0].name, s1.labels), OwnerName(b[0].name, s2.labels),
                        s1.typeCovered, x.class_, y.class_, s1.originalTtl, x.rdatas, y.rdatas);
    }
  }

  /** In bytes that two RRsets share, each record of one has a twin in the other. */
  lemma SharedBytesShareRecords(
    a: seq<ResourceRecord>, s1: RrsigRecord, now1: nat, b: seq<ResourceRecord>, s2: RrsigRecord, now2: nat, r: ResourceRecord)
    returns (twin: ResourceRecord)
    requires WellFormedNames(a) && WellFormedNames(b) && WellFormedRrsig(s1) && WellFormedRrsig(s2)
    requires SignedBytes(a, s1, now1).Ok? && SignedBytes(a, s1, now1) == SignedBytes(b, s2, now2)
    requires r in a
    ensures twin in b && twin.rtype == r.rtype == s1.typeCovered && s1.labels == s2.labels
    ensures s1.labels as nat <= |r.name| && s1.labels as nat <= |twin.name|
    ensures OwnerName(r.name, s1.labels) == OwnerName(twin.name, s1.labels)
    ensures CanonicalRdata(r.rtype, r.rdata).Ok? && CanonicalRdata(r.rtype, r.rdata) == CanonicalRdata(twin.rtype, twin.rdata)
  {
    SignedBytesDetermineTheRrset(a, s1, now1, b, s2, now2);
    AtWhole(s1.signedRdata);
    PrefixIsUnambiguous(s1.signedRdata, s1, s2);
    var d := MemberOfCovered(a, s1, r);
    twin := MemberFromCovered(b, s2, d);
    MemberName(a, s1, r);
    MemberName(b, s2, twin);
    hide *;
    WireIsPrefixFree(OwnerName(r.name, s1.labels), OwnerName(twin.name, s1.labels),
                     CoveredBy(a, s1).value.owner, 0);
  }

  lemma MemberName(rrset: seq<ResourceRecord>, s: RrsigRecord, r: ResourceRecord)
    requires WellFormedNames(rrset) && CoveredBy(rrset, s).Ok? && r in rrset
    ensures s.labels as nat <= |r.name|
    ensures var n := OwnerName(r.name, s.labels);
      WellFormed(n) && Encodable(n) && At(CoveredBy(rrset, s).value.owner, 0, Wire(n))
  {
    hide MemberRdatas, Sort, Wire, LabelsSize;
    var owner := CanonicalOwner(rrset[0].name, s.labels).value;
    MembersAgree(rrset[0].rtype, rrset[0].class_, owner, s.labels, rrset, r);
    OwnerNameIsWellFormed(r.name, s.labels);
    WellFormedIsEncodable(OwnerName(r.name, s.labels));
  }

  lemma MemberOfCovered(rrset: seq<ResourceRecord>, s: RrsigRecord, r: ResourceRecord) returns (d: seq<byte>)
    requires CoveredBy(rrset, s).Ok? && r in rrset
    ensures r.rtype == s.typeCovered
    ensures CanonicalRdata(r.rtype, r.rdata) == Ok(d) && d in CoveredBy(rrset, s).value.rdatas
  {
    hide MemberRdatas, Sort, CanonicalRdata;
    var owner := CanonicalOwner(rrset[0].name, s.labels).value;
    MembersAgree(rrset[0].rtype, rrset[0].class_, owner, s.labels, rrset, r);
    d := CanonicalRdata(r.rtype, r.rdata).value;
    var ds := MemberRdatas(rrset[0].rtype, rrset[0].class_, owner, s.labels, rrset).value;
    SortSorts(ds);
    SameElements(ds, Sort(ds));
  }

  lemma MemberFromCovered(rrset: seq<ResourceRecord>, s: RrsigRecord, d: seq<byte>) returns (r: ResourceRecord)
    requires CoveredBy(rrset, s).Ok? && d in CoveredBy(rrset, s).value.rdatas
    ensures r in rrset && r.rtype == s.typeCovered && CanonicalRdata(r.rtype, r.rdata) == Ok(d)
  {
    hide MemberRdatas, Sort, CanonicalRdata;
    var owner := CanonicalOwner(rrset[0].name, s.labels).value;
    var ds := MemberRdatas(rrset[0].rtype, rrset[0].class_, owner, s.labels, rrset).value;
    SortSorts(ds);
    SameElements(ds, Sort(ds));
    r := RdataComesFrom(rrset[0].rtype, rrset[0].class_, owner, s.labels, rrset, d);
  }

  lemma {:induction false} RdataComesFrom(
    rtype: RecordType, class_: u16, owner: seq<byte>, labels: nat, rrset: seq<ResourceRecord>, d: seq<byte>)
    returns (r: ResourceRecord)
    requires MemberRdatas(rtype, class_, owner, labels, rrset).Ok?
    requires d in MemberRdatas(rtype, class_, owner, labels, rrset).value
    ensures r in rrset && r.rtype == rtype && CanonicalRdata(r.rtype, r.rdata) == Ok(d)
    decreases |rrset|
  {
    hide CanonicalRdata, CanonicalOwner;
    var n := |rrset| - 1;
    r := rrset[n];
    if MemberRdata(rtype, class_, owner, labels, r) != Ok(d) {
      r := RdataComesFrom(rtype, class_, owner, labels, rrset[..n], d);
    }
  }

  // ---------------------------------------------------------------- the buffer-filling form

  datatype CanonicalRecord = CanonicalRecord(rdata: seq<byte>, wire: seq<byte>)

  /** Records are sorted with their wire forms attached. */
  function InsertRecord(x: CanonicalRecord, s: seq<CanonicalRecord>): seq<CanonicalRecord> {
    if s == [] then [x] else if AtMost(x.rdata, s[0].rdata) then [x] + s else [s[0]] + InsertRecord(x, s[1..])
  }

  function SortRecords(s: seq<CanonicalRecord>): seq<CanonicalRecord> {
    if s == [] then [] else InsertRecord(s[0], SortRecords(s[1..]))
  }

  ghost function WithWires(owner: seq<byte>, rtype: RecordType, class_: u16, ttl: u32, rdatas: seq<seq<byte>>)
    : (r: seq<CanonicalRecord>)
    requires Short(rdatas)
    ensures |r| == |rdatas|
    ensures forall i | 0 <= i < |rdatas| ::
      r[i] == CanonicalRecord(rdatas[i], RecordWire(owner, rtype, class_, ttl, rdatas[i]))
  {
    seq(|rdatas|, i requires 0 <= i < |rdatas| =>
      CanonicalRecord(rdatas[i], RecordWire(owner, rtype, class_, ttl, rdatas[i])))
  }

  lemma {:induction false} InsertCommutes(
    owner: seq<byte>, rtype: RecordType, class_: u16, ttl: u32, x: seq<byte>, s: seq<seq<byte>>)
    requires |x| <= 0xffff && Short(s)
    ensures Short(Insert(x, s))
    ensures InsertRecord(CanonicalRecord(x, RecordWire(owner, rtype, class_, ttl, x)), WithWires(owner, rtype, class_, ttl, s))
         == WithWires(owner, rtype, class_, ttl, Insert(x, s))
    decreases |s|
  {
    hide RecordWire, AtMost;
    if s != [] {
      var all := WithWires(owner, rtype, class_, ttl, s);
      assert all[1..] == WithWires(owner, rtype, class_, ttl, s[1..]);
      InsertCommutes(owner, rtype, class_, ttl, x, s[1..]);
    }
  }

  lemma {:induction false} SortCommutes(owner: seq<byte>, rtype: RecordType, class_: u16, ttl: u32, s: seq<seq<byte>>)
    requires Short(s)
    ensures Short(Sort(s))
    ensures SortRecords(WithWires(owner, rtype, class_, ttl, s)) == WithWires(owner, rtype, class_, ttl, Sort(s))
    decreases |s|
  {
    hide RecordWire, Insert, InsertRecord;
    if s != [] {
      var all := WithWires(owner, rtype, class_, ttl, s);
      assert all[1..] == WithWires(owner, rtype, class_, ttl, s[1..]);
      SortCommutes(owner, rtype, class_, ttl, s[1..]);
      InsertCommutes(owner, rtype, class_, ttl, s[0], Sort(s[1..]));
    }
  }

  method CanonicalRrset(rrset: seq<ResourceRecord>, rrsig: RrsigRecord)
    returns (r: Result<seq<CanonicalRecord>, DnssecError>, ghost owner: seq<byte>, ghost rdatas: seq<seq<byte>>)
    ensures rrset == [] || rrset[0].rtype != rrsig.typeCovered ==> r == Err(InvalidRrset)
    ensures rrset != [] && rrset[0].rtype == rrsig.typeCovered ==>
      match CanonicalOwner(rrset[0].name, rrsig.labels)
      case Err(e) => r == Err(e)
      case Ok(o) => o == owner && match MemberRdatas(rrset[0].rtype, rrset[0].class_, o, rrsig.labels, rrset)
        case Err(e) => r == Err(e)
        case Ok(ds) => (
          && ds == rdatas && Short(ds)
          && r == Ok(WithWires(o, rrsig.typeCovered, rrset[0].class_, rrsig.originalTtl, ds)))
  {
    hide MemberRdata, CanonicalOwner, RecordWire;
    owner, rdatas := [], [];
    if rrset == [] || rrset[0].rtype != rrsig.typeCovered {
      return Err(InvalidRrset), owner, rdatas;
    }
    var encoded := CanonicalOwnerBytes(rrset[0].name, rrsig.labels);
    if encoded.Err? {
      return Err(encoded.error), owner, rdatas;
    }
    owner := encoded.value;
    var class_, rtype := rrset[0].class_, rrset[0].rtype;
    var records: seq<CanonicalRecord> := [];
    for i := 0 to |rrset|
      invariant MemberRdatas(rtype, class_, owner, rrsig.labels, rrset[..i]) == Ok(rdatas)
      invariant Short(rdatas) && records == WithWires(owner, rtype, class_, rrsig.originalTtl, rdatas)
    {
      var next := MemberRdata(rtype, class_, encoded.value, rrsig.labels, rrset[i]);
      assert rrset[..i + 1][..i] == rrset[..i];
      if next.Err? {
        MemberRdatasFailure(rtype, class_, owner, rrsig.labels, rrset, i + 1);
        return Err(next.error), owner, rdatas;
      }
      MemberRdatasShort(rtype, class_, owner, rrsig.labels, rrset[..i + 1]);
      assert (rdatas + [next.value])[i] == next.value;
      var wire := RecordWire(encoded.value, rtype, class_, rrsig.originalTtl, next.value);
      records := records + [CanonicalRecord(next.value, wire)];
      rdatas := rdatas + [next.value];
    }
    assert rrset[..|rrset|] == rrset;
    return Ok(records), owner, rdatas;
  }

  lemma {:induction false} MemberRdatasFailure(
    rtype: RecordType, class_: u16, owner: seq<byte>, labels: nat, rrset: seq<ResourceRecord>, n: nat)
    requires n <= |rrset| && MemberRdatas(rtype, class_, owner, labels, rrset[..n]).Err?
    ensures MemberRdatas(rtype, class_, owner, labels, rrset)
         == Err(MemberRdatas(rtype, class_, owner, labels, rrset[..n]).error)
    decreases |rrset|
  {
    hide MemberRdata;
    if n < |rrset| {
      assert rrset[..|rrset| - 1][..n] == rrset[..n];
      MemberRdatasFailure(rtype, class_, owner, labels, rrset[..|rrset| - 1], n);
    } else {
      assert rrset[..n] == rrset;
    }
  }

  method SignedDataBytes(rrset: seq<ResourceRecord>, rrsig: RrsigRecord, now: nat) returns (r: Result<seq<byte>, DnssecError>)
    ensures r == SignedBytes(rrset, rrsig, now)
  {
    hide MemberRdatas, CanonicalOwner, RecordWire, Sort, SortRecords, Body;
    if now < rrsig.inception || now > rrsig.expiration {
      return Err(SignatureOutsideValidity);
    }
    var records, owner, rdatas := CanonicalRrset(rrset, rrsig);
    if records.Err? {
      return Err(records.error);
    }
    ghost var class_ := rrset[0].class_;
    SortCommutes(owner, rrsig.typeCovered, class_, rrsig.originalTtl, rdatas);
    var sorted := SortRecords(records.value);
    ghost var keys := Sort(rdatas);
    assert sorted == WithWires(owner, rrsig.typeCovered, class_, rrsig.originalTtl, keys);
    for i := 0 to |sorted|
      invariant forall k | 0 < k < i :: keys[k - 1] != keys[k]
    {
      if i > 0 && sorted[i - 1].rdata == sorted[i].rdata {
        assert keys[i - 1] == keys[i];
        return Err(InvalidRrset);
      }
    }
    var out := rrsig.signedRdata;
    for i := 0 to |sorted|
      invariant rrsig.signedRdata + Body(owner, rrsig.typeCovered, class_, rrsig.originalTtl, keys)
             == out + Body(owner, rrsig.typeCovered, class_, rrsig.originalTtl, keys[i..])
    {
      BodyStep(owner, rrsig.typeCovered, class_, rrsig.originalTtl, keys, i, out);
      out := out + sorted[i].wire;
    }
    BodyEnd(owner, rrsig.typeCovered, class_, rrsig.originalTtl, keys, out);
    return Ok(out);
  }

  lemma BodyStep(owner: seq<byte>, rtype: RecordType, class_: u16, ttl: u32, s: seq<seq<byte>>, i: nat, out: seq<byte>)
    requires Short(s) && i < |s|
    ensures out + Body(owner, rtype, class_, ttl, s[i..])
         == out + RecordWire(owner, rtype, class_, ttl, s[i]) + Body(owner, rtype, class_, ttl, s[i + 1..])
  {
    hide RecordWire;
    assert s[i..][1..] == s[i + 1..];
  }

  lemma BodyEnd(owner: seq<byte>, rtype: RecordType, class_: u16, ttl: u32, s: seq<seq<byte>>, out: seq<byte>)
    requires Short(s)
    ensures s[0..] == s && out + Body(owner, rtype, class_, ttl, s[|s|..]) == out
  {
  }
}
