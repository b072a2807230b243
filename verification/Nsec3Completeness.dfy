/**
 * The other direction: for every name the zone's own records hold the evidence, and what the
 * validators answer to them, exactly.
 */
module Nsec3Completeness {
  import opened Prelude
  import opened WireName
  import opened WireMessage
  import opened NameText
  import opened Base32Hex
  import opened CircularOrder
  import opened Rdata
  import opened Signatures
  import opened Nsec3
  import opened Nsec3Soundness

  /** An accepted set that holds exactly the record of one link. */
  ghost predicate Honest(x: Context, z: Zone, s: SignedSet, p: Params, i: nat) {
    && ValidateSet(x, s) == Ok(Secure)
    && |s.records| == 1 && s.records[0].rtype == RecordType.Nsec3 && StatesLinkAt(z, s.records[0], p, i)
  }

  /** The hash function has one output length. */
  ghost predicate FixedLength(c: Crypto) {
    forall a: seq<byte>, b: seq<byte> :: |c.sha1(a)| == |c.sha1(b)|
  }

  lemma HashLength(c: Crypto, p: Params, a: DnsName, b: DnsName)
    requires FixedLength(c) && Encodable(a) && Encodable(b)
    ensures |HashOf(c, p, a)| == |HashOf(c, p, b)|
  {
    HashIsComputed(c, p, a);
    HashIsComputed(c, p, b);
    hide FixedLength, Wire, HashOf;
    IteratedLength(c, Wire(a), Wire(b), p.salt, p.iterations);
  }

  lemma IteratedLength(c: Crypto, a: seq<byte>, b: seq<byte>, salt: seq<byte>, iterations: nat)
    requires FixedLength(c)
    ensures |Iterated(c.sha1, a, salt, iterations)| == |Iterated(c.sha1, b, salt, iterations)|
  {
    if iterations == 0 {
      assert |c.sha1(a + salt)| == |c.sha1(b + salt)|;
    } else {
      var x, y := Iterated(c.sha1, a, salt, iterations - 1) + salt, Iterated(c.sha1, b, salt, iterations - 1) + salt;
      assert |c.sha1(x)| == |c.sha1(y)|;
    }
  }

  /** Every hash of a chain has the length of the hash of any name. */
  lemma LinkLength(c: Crypto, z: Zone, p: Params, i: nat, name: DnsName)
    requires FixedLength(c) && ValidZone(c, z) && p in z.chains && i < |z.chains[p]| && Encodable(name)
    ensures |z.chains[p][i].hash| == |HashOf(c, p, name)|
  {
    hide FixedLength, HashOf, SortedCircle, Chained;
    assert ValidChain(c, z, p);
    var n :| n in z.names && z.chains[p][i].hash == HashOf(c, p, n);
    HashLength(c, p, n, name);
  }

  /** The proof record that the validators read out of an honest set. */
  lemma HonestProof(x: Context, z: Zone, s: SignedSet, p: Params, i: nat)
    requires FixedLength(x.crypto) && ValidZone(x.crypto, z) && x.signer == z.apex && Honest(x, z, s, p, i)
    ensures p in z.chains && i < |z.chains[p]|
    ensures ParseProofs(s.records, x.signer) == Ok([ProofRecord(LinkRecord(p, z.chains[p], i), z.chains[p][i].hash)])
  {
    var record, chain := s.records[0], z.chains[p];
    var next := if i + 1 < |chain| then i + 1 else 0;
    assert z.apex in z.names && Encodable(z.apex);
    LinkLength(x.crypto, z, p, i, z.apex);
    LinkLength(x.crypto, z, p, next, z.apex);
    hide FixedLength, ValidZone, Decode, Encode, ParseNsec3, ValidateSet, HashOf;
    DecodeInvertsEncode(chain[i].hash);
    assert record.name[1..] == z.apex;
    assert OwnerHash(record.name, z.apex) == Ok(chain[i].hash);
    assert s.records[..0] == [] && ParseProofs([], x.signer) == Ok([]);
    assert [] + [ProofRecord(LinkRecord(p, chain, i), chain[i].hash)] == [ProofRecord(LinkRecord(p, chain, i), chain[i].hash)];
  }

  lemma MatchesLink(c: Crypto, z: Zone, p: Params, i: nat, name: DnsName)
    requires p in z.chains && i < |z.chains[p]| && p.iterations as nat <= MAX_ITERATIONS && Encodable(name)
    ensures var proof := ProofRecord(LinkRecord(p, z.chains[p], i), z.chains[p][i].hash);
      && Matches(c, proof, name) == Ok(z.chains[p][i].hash == HashOf(c, p, name))
      && CoversName(c, proof, name) == Ok(Nsec3CoversHash(z.chains[p][i].hash, NextOwner(Hashes(z.chains[p]), i), HashOf(c, p, name)))
  {
    HashIsComputed(c, p, name);
    hide Wire, Iterated, Nsec3CoversHash, HashOf;
  }

  lemma FoundInOne(c: Crypto, proof: ProofRecord, name: DnsName, expected: Option<Nsec3Record>)
    requires expected.Some? ==> SameParams(expected.value, proof.nsec3)
    ensures Matches(c, proof, name) == Ok(true) ==> FindMatching(c, [proof], name, expected) == Ok(Some(proof))
    ensures CoversName(c, proof, name) == Ok(true) ==> FindCovering(c, [proof], name, expected) == Ok(Some(proof))
  {
    hide Matches, CoversName;
  }

  /** The link that covers the hash of an absent name. */
  ghost predicate CoversAbsent(c: Crypto, z: Zone, p: Params, i: nat, name: DnsName) {
    && Encodable(name) && p in z.chains && i < |z.chains[p]|
    && Nsec3CoversHash(z.chains[p][i].hash, NextOwner(Hashes(z.chains[p]), i), HashOf(c, p, name))
  }

  /** The link of an existing name. */
  ghost predicate IsLinkOf(c: Crypto, z: Zone, p: Params, i: nat, name: DnsName) {
    Encodable(name) && p in z.chains && i < |z.chains[p]| && z.chains[p][i].hash == HashOf(c, p, name)
  }

  ghost predicate NoOptOut(z: Zone, p: Params)
    requires p in z.chains
  {
    forall i | 0 <= i < |z.chains[p]| :: !z.chains[p][i].optOut
  }

  /** In a chain without opt-out each existing name has a link, and each absent one that does not collide is covered. */
  lemma EvidenceExists(c: Crypto, z: Zone, p: Params, name: DnsName) returns (i: nat)
    requires FixedLength(c) && ValidZone(c, z) && p in z.chains && NoOptOut(z, p) && Encodable(name) && NoCollision(c, z, name)
    ensures if name in z.names then IsLinkOf(c, z, p, i, name) else CoversAbsent(c, z, p, i, name)
  {
    hide HashOf, FixedLength;
    assert ValidChain(c, z, p);
    var owners, h := Hashes(z.chains[p]), HashOf(c, p, name);
    if name in z.names {
      assert Chained(c, p, z.chains[p], name);
      assert h in owners;
      i :| 0 <= i < |owners| && owners[i] == h;
    } else {
      assert h !in owners;
      forall k | 0 <= k < |owners|
        ensures |owners[k]| == |h|
      {
        LinkLength(c, z, p, k, name);
      }
      hide ValidZone, Names, NoCollision, Nsec3CoversHash;
      Nsec3ChainCoversOnce(owners, h);
      i :| 0 <= i < |owners| && Nsec3CoversHash(owners[i], NextOwner(owners, i), h);
    }
  }

  // ---------------------------------------------------------------- the answers to honest sets

  /** The record of a link, as the validators see it. */
  ghost function ProofOf(z: Zone, p: Params, i: nat): ProofRecord
    requires p in z.chains && i < |z.chains[p]|
  {
    ProofRecord(LinkRecord(p, z.chains[p], i), z.chains[p][i].hash)
  }

  /** What looking for a name in an honest set finds. */
  lemma HonestSearch(x: Context, z: Zone, s: SignedSet, p: Params, i: nat, name: DnsName, other: Option<nat>)
    returns (expected: Option<Nsec3Record>)
    requires FixedLength(x.crypto) && ValidZone(x.crypto, z) && x.signer == z.apex && Honest(x, z, s, p, i)
    requires p.iterations as nat <= MAX_ITERATIONS && Encodable(name)
    requires other.Some? ==> p in z.chains && other.value < |z.chains[p]|
    ensures p in z.chains && i < |z.chains[p]| && s.records != [] && ValidateSet(x, s) == Ok(Secure) && ValidBitmaps(z.chains[p][i].maps, None)
    ensures ParseProofs(s.records, x.signer) == Ok([ProofOf(z, p, i)])
    ensures expected == (if other.Some? then Some(ProofOf(z, p, other.value).nsec3) else None)
    ensures IsLinkOf(x.crypto, z, p, i, name) ==>
      FindMatching(x.crypto, [ProofOf(z, p, i)], name, expected) == Ok(Some(ProofOf(z, p, i)))
    ensures CoversAbsent(x.crypto, z, p, i, name) ==>
      FindCovering(x.crypto, [ProofOf(z, p, i)], name, expected) == Ok(Some(ProofOf(z, p, i)))
  {
    HonestProof(x, z, s, p, i);
    expected := if other.Some? then Some(ProofOf(z, p, other.value).nsec3) else None;
    MatchesLink(x.crypto, z, p, i, name);
    StatedBitmaps(z, s.records[0], p, i);
    FoundInOne(x.crypto, ProofOf(z, p, i), name, expected);
    hide HashOf, FixedLength, ValidZone, ValidateSet, ParseProofs, FindMatching, FindCovering, Nsec3CoversHash, Matches, CoversName;
  }

  lemma StatedBitmaps(z: Zone, r: ResourceRecord, p: Params, i: nat)
    requires StatesLinkAt(z, r, p, i)
    ensures ValidBitmaps(z.chains[p][i].maps, None)
  {
  }

  lemma TypesOfLink(z: Zone, p: Params, i: nat, rtype: RecordType)
    requires p in z.chains && i < |z.chains[p]| && ValidBitmaps(z.chains[p][i].maps, None)
    ensures HasTypeChecked(LinkRecord(p, z.chains[p], i), rtype) == Ok(HasType(z.chains[p][i].maps, rtype.Code()))
  {
  }

  /** The link is one of this name, and its bitmap lacks the type and CNAME (5). */
  ghost predicate DeniesType(c: Crypto, z: Zone, p: Params, i: nat, name: DnsName, qtype: RecordType) {
    && IsLinkOf(c, z, p, i, name)
    && !HasType(z.chains[p][i].maps, qtype.Code()) && !HasType(z.chains[p][i].maps, 5)
  }

  lemma LacksOfLink(z: Zone, p: Params, i: nat, qtype: RecordType)
    requires p in z.chains && i < |z.chains[p]| && ValidBitmaps(z.chains[p][i].maps, None)
    ensures LacksType(LinkRecord(p, z.chains[p], i), qtype)
      == Ok(!HasType(z.chains[p][i].maps, qtype.Code()) && !HasType(z.chains[p][i].maps, 5))
  {
    TypesOfLink(z, p, i, qtype);
    TypesOfLink(z, p, i, Cname);
    hide HasTypeChecked, HasType;
  }

  /** No data: Secure exactly for the link of the name whose bitmap denies the type. */
  lemma NoDataAnswer(x: Context, z: Zone, s: SignedSet, p: Params, i: nat, query: DnsName, qtype: RecordType)
    requires FixedLength(x.crypto) && ValidZone(x.crypto, z) && x.signer == z.apex && Honest(x, z, s, p, i)
    requires p.iterations as nat <= MAX_ITERATIONS && Encodable(query)
    ensures ValidateNoData(x, query, qtype, s) == Ok(if DeniesType(x.crypto, z, p, i, query, qtype) then Secure else Bogus)
  {
    var _ := HonestSearch(x, z, s, p, i, query, None);
    MatchesLink(x.crypto, z, p, i, query);
    LacksOfLink(z, p, i, qtype);
    hide HashOf, FixedLength, ValidZone, ValidateSet, ParseProofs, LacksType, Matches, HasType, Honest, LinkRecord, RecordType.Code;
    assert [ProofOf(z, p, i)][1..] == [] && NoDataIn(x.crypto, [], query, qtype) == Ok(Bogus);
  }

  /** The three links that the proofs about a query and its encloser rest on. */
  ghost predicate HonestEncloser(
    x: Context, z: Zone, p: Params, query: DnsName, encloser: DnsName, closestSet: SignedSet, nextSet: SignedSet, i: nat, j: nat)
  {
    && FixedLength(x.crypto) && ValidZone(x.crypto, z) && x.signer == z.apex && p.iterations as nat <= MAX_ITERATIONS
    && WellFormed(query) && IsStrictSubdomain(query, encloser)
    && Honest(x, z, closestSet, p, i) && IsLinkOf(x.crypto, z, p, i, encloser)
    && Honest(x, z, nextSet, p, j) && CoversAbsent(x.crypto, z, p, j, query[|query| - |encloser| - 1..])
  }

  /** The encloser proof of honest sets is valid exactly if the encloser speaks for the names below it. */
  lemma EncloserAnswer(
    x: Context, z: Zone, p: Params, query: DnsName, encloser: DnsName, closestSet: SignedSet, nextSet: SignedSet, i: nat, j: nat)
    requires HonestEncloser(x, z, p, query, encloser, closestSet, nextSet, i, j)
    ensures p in z.chains && i < |z.chains[p]| && j < |z.chains[p]| && WellFormed(encloser)
    ensures ValidateClosestEncloser(x, query, encloser, closestSet, nextSet)
      == Ok(if SpeaksBelow(z.chains[p][i].maps) then Valid(ProofOf(z, p, i), ProofOf(z, p, j)) else Undecided(Bogus))
  {
    SuffixIsWellFormed(query, encloser);
    WellFormedIsEncodable(encloser);
    NextCloserIs(query, encloser);
    var _ := HonestSearch(x, z, closestSet, p, i, encloser, None);
    var _ := HonestSearch(x, z, nextSet, p, j, query[|query| - |encloser| - 1..], Some(i));
    AuthorityOfLink(z, p, i);
    hide HashOf, FixedLength, ValidZone, ValidateSet, ParseProofs, FindMatching, FindCovering, IsAuthoritative, NextCloserName,
         SpeaksBelow, Honest, IsLinkOf, CoversAbsent, LinkRecord, WellFormed;
  }

  lemma AuthorityOfLink(z: Zone, p: Params, i: nat)
    requires p in z.chains && i < |z.chains[p]| && ValidBitmaps(z.chains[p][i].maps, None)
    ensures IsAuthoritative(LinkRecord(p, z.chains[p], i)) == Ok(SpeaksBelow(z.chains[p][i].maps))
  {
    AuthoritySpeaksBelow(LinkRecord(p, z.chains[p], i));
    hide HasType, ValidBitmaps;
  }

  lemma OptOutOfLink(z: Zone, p: Params, i: nat)
    requires p in z.chains && i < |z.chains[p]|
    ensures OptOut(ProofOf(z, p, i).nsec3) == z.chains[p][i].optOut
  {
  }

  /** Name error, exactly: the zone's own three records are Secure, or Insecure where one of the spans opts out. */
  lemma NameErrorAnswer(
    x: Context, z: Zone, p: Params, query: DnsName, encloser: DnsName,
    closestSet: SignedSet, nextSet: SignedSet, wildcardSet: SignedSet, i: nat, j: nat, k: nat)
    requires HonestEncloser(x, z, p, query, encloser, closestSet, nextSet, i, j) && WildcardChild(encloser).Ok?
    requires Honest(x, z, wildcardSet, p, k) && CoversAbsent(x.crypto, z, p, k, [WILDCARD] + encloser)
    ensures ValidateNameError(x, query, encloser, closestSet, nextSet, wildcardSet)
      == Ok(if !SpeaksBelow(z.chains[p][i].maps) then Bogus
            else if z.chains[p][j].optOut || z.chains[p][k].optOut then InsecureDelegation else Secure)
  {
    hide *;
    EncloserAnswer(x, z, p, query, encloser, closestSet, nextSet, i, j);
    WildcardChildIs(encloser);
    EncloserParts(x, z, p, query, encloser, closestSet, nextSet, i, j);
    var _ := HonestSearch(x, z, wildcardSet, p, k, [WILDCARD] + encloser, Some(i));
    OptOutOfLink(z, p, j);
    OptOutOfLink(z, p, k);
    if SpeaksBelow(z.chains[p][i].maps) {
      NameErrorFrom(x, query, encloser, closestSet, nextSet, wildcardSet, ProofOf(z, p, i), ProofOf(z, p, j), ProofOf(z, p, k));
    } else {
      NoEncloserNoAnswer(x, query, encloser, Ns, closestSet, nextSet, wildcardSet);
    }
  }

  lemma EncloserParts(
    x: Context, z: Zone, p: Params, query: DnsName, encloser: DnsName, closestSet: SignedSet, nextSet: SignedSet, i: nat, j: nat)
    requires HonestEncloser(x, z, p, query, encloser, closestSet, nextSet, i, j) && WellFormed(encloser)
    requires WildcardChild(encloser) == Ok([WILDCARD] + encloser)
    ensures FixedLength(x.crypto) && ValidZone(x.crypto, z) && x.signer == z.apex && p.iterations as nat <= MAX_ITERATIONS
    ensures Encodable([WILDCARD] + encloser)
  {
    hide FixedLength, ValidZone, Honest, IsLinkOf, CoversAbsent, LabelsSize, IsValidLabel, Lower, WildcardChild, Join, FromAscii;
    var name := [WILDCARD] + encloser;
    assert forall m | 0 < m < |name| :: name[m] == encloser[m - 1];
  }

  /** From the three searches to the answer. */
  lemma NameErrorFrom(
    x: Context, query: DnsName, encloser: DnsName, closestSet: SignedSet, nextSet: SignedSet, wildcardSet: SignedSet,
    closest: ProofRecord, next: ProofRecord, found: ProofRecord)
    requires ValidateClosestEncloser(x, query, encloser, closestSet, nextSet) == Ok(Valid(closest, next))
    requires WildcardChild(encloser) == Ok([WILDCARD] + encloser) && ValidateSet(x, wildcardSet) == Ok(Secure)
    requires ParseProofs(wildcardSet.records, x.signer) == Ok([found])
    requires FindCovering(x.crypto, [found], [WILDCARD] + encloser, Some(closest.nsec3)) == Ok(Some(found))
    ensures ValidateNameError(x, query, encloser, closestSet, nextSet, wildcardSet)
      == Ok(if OptOut(next.nsec3) || OptOut(found.nsec3) then InsecureDelegation else Secure)
  {
    hide ValidateSet, ParseProofs, FindCovering, ValidateClosestEncloser, WildcardChild, OptOut;
  }

  lemma NoEncloserNoAnswer(
    x: Context, query: DnsName, encloser: DnsName, qtype: RecordType,
    closestSet: SignedSet, nextSet: SignedSet, wildcardSet: SignedSet)
    requires ValidateClosestEncloser(x, query, encloser, closestSet, nextSet) == Ok(Undecided(Bogus))
    ensures ValidateNameError(x, query, encloser, closestSet, nextSet, wildcardSet) == Ok(Bogus)
    ensures ValidateWildcardNoData(x, query, encloser, qtype, closestSet, nextSet, wildcardSet) == Ok(Bogus)
  {
    hide ValidateSet, ParseProofs, FindCovering, FindMatching, ValidateClosestEncloser, WildcardChild, OptOut, LacksType;
  }

  lemma WildcardNoDataFrom(
    x: Context, query: DnsName, encloser: DnsName, qtype: RecordType,
    closestSet: SignedSet, nextSet: SignedSet, wildcardSet: SignedSet,
    closest: ProofRecord, next: ProofRecord, found: ProofRecord, lacks: bool)
    requires ValidateClosestEncloser(x, query, encloser, closestSet, nextSet) == Ok(Valid(closest, next))
    requires WildcardChild(encloser) == Ok([WILDCARD] + encloser) && ValidateSet(x, wildcardSet) == Ok(Secure)
    requires ParseProofs(wildcardSet.records, x.signer) == Ok([found])
    requires FindMatching(x.crypto, [found], [WILDCARD] + encloser, Some(closest.nsec3)) == Ok(Some(found))
    requires LacksType(found.nsec3, qtype) == Ok(lacks)
    ensures ValidateWildcardNoData(x, query, encloser, qtype, closestSet, nextSet, wildcardSet)
      == Ok(if OptOut(next.nsec3) then InsecureDelegation else if lacks then Secure else Bogus)
  {
    hide ValidateSet, ParseProofs, FindMatching, ValidateClosestEncloser, WildcardChild, OptOut, LacksType;
  }

  /** No data under a wildcard, exactly. */
  lemma WildcardNoDataAnswer(
    x: Context, z: Zone, p: Params, query: DnsName, encloser: DnsName, qtype: RecordType,
    closestSet: SignedSet, nextSet: SignedSet, wildcardSet: SignedSet, i: nat, j: nat, k: nat)
    requires HonestEncloser(x, z, p, query, encloser, closestSet, nextSet, i, j) && WildcardChild(encloser).Ok?
    requires Honest(x, z, wildcardSet, p, k) && IsLinkOf(x.crypto, z, p, k, [WILDCARD] + encloser)
    ensures ValidateWildcardNoData(x, query, encloser, qtype, closestSet, nextSet, wildcardSet)
      == Ok(if !SpeaksBelow(z.chains[p][i].maps) then Bogus
            else if z.chains[p][j].optOut then InsecureDelegation
            else if DeniesType(x.crypto, z, p, k, [WILDCARD] + encloser, qtype) then Secure else Bogus)
  {
    hide *;
    EncloserAnswer(x, z, p, query, encloser, closestSet, nextSet, i, j);
    WildcardChildIs(encloser);
    EncloserParts(x, z, p, query, encloser, closestSet, nextSet, i, j);
    var _ := HonestSearch(x, z, wildcardSet, p, k, [WILDCARD] + encloser, Some(i));
    OptOutOfLink(z, p, j);
    DenialOfLink(x.crypto, z, p, k, [WILDCARD] + encloser, qtype);
    if SpeaksBelow(z.chains[p][i].maps) {
      WildcardNoDataFrom(x, query, encloser, qtype, closestSet, nextSet, wildcardSet,
                         ProofOf(z, p, i), ProofOf(z, p, j), ProofOf(z, p, k),
                         DeniesType(x.crypto, z, p, k, [WILDCARD] + encloser, qtype));
    } else {
      NoEncloserNoAnswer(x, query, encloser, qtype, closestSet, nextSet, wildcardSet);
    }
  }

  lemma DenialOfLink(c: Crypto, z: Zone, p: Params, i: nat, name: DnsName, qtype: RecordType)
    requires IsLinkOf(c, z, p, i, name) && ValidBitmaps(z.chains[p][i].maps, None)
    ensures LacksType(ProofOf(z, p, i).nsec3, qtype) == Ok(DeniesType(c, z, p, i, name, qtype))
  {
    LacksOfLink(z, p, i, qtype);
    hide HashOf, HasType, ValidBitmaps, LacksType;
  }

  /** A wildcard answer, exactly: the record covering the next closer name decides by its opt-out flag. */
  lemma WildcardProofAnswer(
    x: Context, z: Zone, p: Params, query: DnsName, encloser: DnsName, nextSet: SignedSet, j: nat)
    requires FixedLength(x.crypto) && ValidZone(x.crypto, z) && x.signer == z.apex && p.iterations as nat <= MAX_ITERATIONS
    requires WellFormed(query) && IsStrictSubdomain(query, encloser)
    requires Honest(x, z, nextSet, p, j) && CoversAbsent(x.crypto, z, p, j, query[|query| - |encloser| - 1..])
    ensures p in z.chains && j < |z.chains[p]|
    ensures ValidateWildcardAnswer(x, query, encloser, nextSet) == Ok(if z.chains[p][j].optOut then InsecureDelegation else Secure)
  {
    NextCloserIs(query, encloser);
    var _ := HonestSearch(x, z, nextSet, p, j, query[|query| - |encloser| - 1..], None);
    OptOutOfLink(z, p, j);
    hide FixedLength, ValidZone, ValidateSet, ParseProofs, FindCovering, NextCloserName, Honest, CoversAbsent, OptOut, LinkRecord,
         WellFormed;
  }
}
