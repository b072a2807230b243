/**
 * What a Secure answer of the NSEC3 validators says about the zone. The zone is arbitrary; the
 * assumption is only about bytes: a signature that holds under one of the given keys is over data
 * that the zone's signer signed, and the NSEC3 records it signed state its hash chains.
 */
module Nsec3Soundness {
  import opened Prelude
  import opened WireName
  import opened WireMessage
  import opened NameText
  import opened Base32Hex
  import opened CircularOrder
  import opened Rdata
  import opened SignedData
  import opened Signatures
  import opened Nsec3

  // ---------------------------------------------------------------- the zone

  datatype Params = Params(iterations: u16, salt: seq<byte>)

  datatype Link = Link(hash: seq<byte>, optOut: bool, maps: seq<byte>)

  /** Every existing name, empty non-terminals included, and one hash chain for each set of parameters. */
  datatype Zone = Zone(apex: DnsName, names: set<DnsName>, chains: map<Params, seq<Link>>)

  ghost predicate IsHashOf(c: Crypto, p: Params, name: DnsName, digest: seq<byte>)
    requires Encodable(name)
  {
    exists digests ::
      HashRounds(c.sha1, Wire(name), p.salt, p.iterations, digests) && digests[p.iterations] == digest
  }

  /** The hash of a name in a chain, by the rounds of section 5 of RFC 5155. */
  ghost function HashOf(c: Crypto, p: Params, name: DnsName): (digest: seq<byte>)
    requires Encodable(name)
    ensures IsHashOf(c, p, name, digest)
  {
    HashExists(c, p, name);
    var digest :| IsHashOf(c, p, name, digest);
    digest
  }

  lemma HashExists(c: Crypto, p: Params, name: DnsName)
    requires Encodable(name)
    ensures exists digest :: IsHashOf(c, p, name, digest)
  {
    var digests := RoundsExist(c.sha1, Wire(name), p.salt, p.iterations);
    assert IsHashOf(c, p, name, digests[p.iterations]);
  }

  /** It is what the validator computes. */
  lemma HashIsComputed(c: Crypto, p: Params, name: DnsName)
    requires Encodable(name)
    ensures Iterated(c.sha1, Wire(name), p.salt, p.iterations) == HashOf(c, p, name)
  {
    assert IsHashOf(c, p, name, HashOf(c, p, name));
    hide Iterated, Wire, HashOf;
    var digests :| HashRounds(c.sha1, Wire(name), p.salt, p.iterations, digests)
      && digests[p.iterations] == HashOf(c, p, name);
    LastRound(c.sha1, Wire(name), p.salt, p.iterations, digests);
  }

  ghost function Hashes(chain: seq<Link>): (r: seq<seq<byte>>)
    ensures |r| == |chain| && forall i | 0 <= i < |chain| :: r[i] == chain[i].hash
  {
    seq(|chain|, i requires 0 <= i < |chain| => chain[i].hash)
  }

  ghost predicate Names(z: Zone) {
    && z.apex in z.names
    && (forall n | n in z.names :: WellFormed(n) && Encodable(n) && EndsWith(n, z.apex))
    && (forall n | n in z.names && n != z.apex :: n != [] && n[1..] in z.names)
  }

  /** A name is in the chain, or an opt-out span of the chain leaves it out. */
  ghost predicate Chained(c: Crypto, p: Params, chain: seq<Link>, n: DnsName)
    requires Encodable(n)
  {
    || HashOf(c, p, n) in Hashes(chain)
    || exists i: nat :: CoveredAt(BytesLess, Hashes(chain), i, HashOf(c, p, n)) && chain[i].optOut
  }

  ghost predicate ValidChain(c: Crypto, z: Zone, p: Params)
    requires Names(z) && p in z.chains
  {
    && SortedCircle(BytesLess, Hashes(z.chains[p]))
    && (forall i | 0 <= i < |z.chains[p]| :: exists n :: n in z.names && z.chains[p][i].hash == HashOf(c, p, n))
    && (forall n | n in z.names :: Chained(c, p, z.chains[p], n))
  }

  ghost predicate ValidZone(c: Crypto, z: Zone) {
    Names(z) && forall p | p in z.chains :: ValidChain(c, z, p)
  }

  /** The NSEC3 record for one link of a chain. */
  ghost function LinkRecord(p: Params, chain: seq<Link>, i: nat): Nsec3Record
    requires i < |chain|
  {
    Nsec3Record(SHA1, if chain[i].optOut then 1 else 0, p.iterations, p.salt, NextOwner(Hashes(chain), i), chain[i].maps)
  }

  ghost predicate StatesLinkAt(z: Zone, r: ResourceRecord, p: Params, i: nat) {
    && p in z.chains && i < |z.chains[p]|
    && r.name == [Encode(z.chains[p][i].hash)] + z.apex
    && ParseNsec3(r.rdata) == Ok(LinkRecord(p, z.chains[p], i))
  }

  ghost predicate StatesLink(z: Zone, r: ResourceRecord) {
    exists p: Params, i: nat :: StatesLinkAt(z, r, p, i)
  }

  /** RRsets as the zone's signer publishes them: NSEC3 records state links and are not wildcards. */
  ghost predicate Publishes(z: Zone, rrset: seq<ResourceRecord>, rrsig: RrsigRecord) {
    && WellFormedNames(rrset) && WellFormedRrsig(rrsig)
    && forall i | 0 <= i < |rrset| && rrset[i].rtype == Nsec3 ::
         StatesLink(z, rrset[i]) && rrsig.labels as nat == |rrset[i].name|
  }

  ghost predicate SignedByZone(z: Zone, data: seq<byte>) {
    exists rrset, rrsig, now :: SignedBytes(rrset, rrsig, now) == Ok(data) && Publishes(z, rrset, rrsig)
  }

  /** Under the given keys, signatures hold only over data that the zone signed. */
  ghost predicate Unforgeable(x: Context, z: Zone) {
    forall key: DnskeyRecord, data: seq<byte>, signature: seq<byte> ::
      ParseDnskeys(x.dnskeys).Ok? && key in ParseDnskeys(x.dnskeys).value
      && x.crypto.holds(key.algorithm, key.publicKey, data, signature)
      ==> SignedByZone(z, data)
  }

  // ---------------------------------------------------------------- from signatures to records

  /** A record that shares signed bytes with a published NSEC3 record is that record. */
  lemma TwinIsTheRecord(z: Zone, r: ResourceRecord, twin: ResourceRecord, labels: nat)
    requires WellFormed(r.name) && WellFormed(twin.name)
    requires labels == |twin.name| && labels <= |r.name| && OwnerName(r.name, labels) == OwnerName(twin.name, labels)
    requires r.rtype == twin.rtype == Nsec3
    requires CanonicalRdata(r.rtype, r.rdata).Ok? && CanonicalRdata(r.rtype, r.rdata) == CanonicalRdata(twin.rtype, twin.rdata)
    requires StatesLink(z, twin)
    ensures StatesLink(z, r)
  {
    hide WellFormed, Wire, Encode, ParseNsec3;
    OwnerNameIsWellFormed(r.name, labels);
    OwnerNameIsWellFormed(twin.name, labels);
    var p: Params, i: nat :| StatesLinkAt(z, twin, p, i);
    HashLabelIsNoWildcard(z.chains[p][i].hash);
    assert r.name == twin.name;
    assert StatesLinkAt(z, r, p, i);
  }

  lemma HashLabelIsNoWildcard(hash: seq<byte>)
    ensures Encode(hash) != WILDCARD
  {
    hide Encode;
    assert |Encode(hash)| == EncodedLength(|hash|) != 1;
  }

  /** Every NSEC3 record of an accepted RRset states a link of one of the zone's chains. */
  lemma AcceptedStatesLinks(x: Context, z: Zone, s: SignedSet, r: ResourceRecord)
    requires Unforgeable(x, z) && WellFormedNames(s.records)
    requires ValidateSet(x, s) == Ok(Secure) && r in s.records && r.rtype == Nsec3
    ensures StatesLink(z, r)
  {
    hide ValidateRrsetSignature, WellFormedRrsig, StatesLink, CanonicalRdata, OwnerName, Unforgeable, SignedBytes, WellFormedNames;
    var rrsig, key := AcceptedIsSigned(x.crypto, x.signer, x.dnskeys, s.records, s.rrsigs, x.now);
    var data := SignedBytes(s.records, rrsig, x.now).value;
    HeldBySignedData(x, z, key, data, rrsig.signature);
    var rrset, rrsig', now :| SignedBytes(rrset, rrsig', now) == Ok(data) && Publishes(z, rrset, rrsig');
    var twin := SharedBytesShareRecords(s.records, rrsig, x.now, rrset, rrsig', now, r);
    var k :| 0 <= k < |rrset| && rrset[k] == twin;
    NameOf(s.records, r);
    NameOf(rrset, twin);
    TwinIsTheRecord(z, r, twin, rrsig.labels);
  }

  lemma HeldBySignedData(x: Context, z: Zone, key: DnskeyRecord, data: seq<byte>, signature: seq<byte>)
    requires Unforgeable(x, z) && ParseDnskeys(x.dnskeys).Ok? && key in ParseDnskeys(x.dnskeys).value
    requires x.crypto.holds(key.algorithm, key.publicKey, data, signature)
    ensures SignedByZone(z, data)
  {
    hide SignedByZone, ParseDnskeys;
  }

  lemma NameOf(rrset: seq<ResourceRecord>, r: ResourceRecord)
    requires WellFormedNames(rrset) && r in rrset
    ensures WellFormed(r.name)
  {
    hide WellFormed;
  }

  // ---------------------------------------------------------------- proof records are links

  ghost predicate ProvesLink(z: Zone, proof: ProofRecord, p: Params, i: nat) {
    && p in z.chains && i < |z.chains[p]|
    && proof == ProofRecord(LinkRecord(p, z.chains[p], i), z.chains[p][i].hash)
  }

  lemma {:induction false} ProofsAreLinks(z: Zone, rrset: seq<ResourceRecord>, proof: ProofRecord)
    requires forall r | r in rrset && r.rtype == Nsec3 :: StatesLink(z, r)
    requires ParseProofs(rrset, z.apex).Ok? && proof in ParseProofs(rrset, z.apex).value
    ensures exists p: Params, i: nat :: ProvesLink(z, proof, p, i)
    decreases |rrset|
  {
    hide ParseNsec3, Decode, Encode, StatesLink, StatesLinkAt, ProvesLink;
    var n := |rrset| - 1;
    var record, front := rrset[n], ParseProofs(rrset[..n], z.apex).value;
    if proof in front {
      ProofsAreLinks(z, rrset[..n], proof);
    } else {
      ProofOfRecord(z, record, proof);
    }
  }

  lemma ProofOfRecord(z: Zone, record: ResourceRecord, proof: ProofRecord)
    requires record.rtype == Nsec3 && StatesLink(z, record)
    requires ParseNsec3(record.rdata) == Ok(proof.nsec3) && OwnerHash(record.name, z.apex) == Ok(proof.ownerHash)
    ensures exists p: Params, i: nat :: ProvesLink(z, proof, p, i)
  {
    hide ParseNsec3, Decode, Encode, LinkRecord;
    var p: Params, i: nat :| StatesLinkAt(z, record, p, i);
    DecodeInvertsEncode(z.chains[p][i].hash);
    assert record.name[0] == Encode(z.chains[p][i].hash);
    assert ProvesLink(z, proof, p, i);
  }

  /** What the validators look up in an accepted set is a link of the zone. */
  lemma AcceptedProofIsLink(x: Context, z: Zone, s: SignedSet, proof: ProofRecord) returns (p: Params, i: nat)
    requires Unforgeable(x, z) && WellFormedNames(s.records) && x.signer == z.apex
    requires ValidateSet(x, s) == Ok(Secure)
    requires ParseProofs(s.records, x.signer).Ok? && proof in ParseProofs(s.records, x.signer).value
    ensures ProvesLink(z, proof, p, i)
  {
    hide Unforgeable, WellFormedNames, ValidateSet, ParseProofs, StatesLink, ProvesLink;
    forall r | r in s.records && r.rtype == Nsec3
      ensures StatesLink(z, r)
    {
      AcceptedStatesLinks(x, z, s, r);
    }
    ProofsAreLinks(z, s.records, proof);
    p, i :| ProvesLink(z, proof, p, i);
  }

  lemma LinkOfProof(z: Zone, proof: ProofRecord, p: Params, i: nat)
    requires ProvesLink(z, proof, p, i)
    ensures p in z.chains && i < |z.chains[p]| && proof.nsec3.maps == z.chains[p][i].maps
  {
  }

  lemma {:induction false} FoundMatching(c: Crypto, proofs: seq<ProofRecord>, name: DnsName, expected: Option<Nsec3Record>)
    requires FindMatching(c, proofs, name, expected).Ok? && FindMatching(c, proofs, name, expected).value.Some?
    ensures var proof := FindMatching(c, proofs, name, expected).value.value;
      proof in proofs && Matches(c, proof, name) == Ok(true) && (expected.Some? ==> SameParams(expected.value, proof.nsec3))
  {
    hide Matches;
    if (expected.Some? && !SameParams(expected.value, proofs[0].nsec3)) || Matches(c, proofs[0], name) != Ok(true) {
      FoundMatching(c, proofs[1..], name, expected);
    }
  }

  lemma {:induction false} FoundCovering(c: Crypto, proofs: seq<ProofRecord>, name: DnsName, expected: Option<Nsec3Record>)
    requires FindCovering(c, proofs, name, expected).Ok? && FindCovering(c, proofs, name, expected).value.Some?
    ensures var proof := FindCovering(c, proofs, name, expected).value.value;
      proof in proofs && CoversName(c, proof, name) == Ok(true) && (expected.Some? ==> SameParams(expected.value, proof.nsec3))
  {
    hide CoversName;
    if (expected.Some? && !SameParams(expected.value, proofs[0].nsec3)) || CoversName(c, proofs[0], name) != Ok(true) {
      FoundCovering(c, proofs[1..], name, expected);
    }
  }

  // ---------------------------------------------------------------- what links say about names

  /** No existing name of the zone shares a hash with this one. */
  ghost predicate NoCollision(c: Crypto, z: Zone, name: DnsName)
    requires Names(z)
  {
    Encodable(name) ==> forall p, n | p in z.chains && n in z.names && HashOf(c, p, n) == HashOf(c, p, name) :: n == name
  }

  lemma MatchedNameExists(c: Crypto, z: Zone, proof: ProofRecord, p: Params, i: nat, name: DnsName)
    requires ValidZone(c, z) && NoCollision(c, z, name)
    requires ProvesLink(z, proof, p, i) && Matches(c, proof, name) == Ok(true)
    ensures name in z.names && Encodable(name) && HashOf(c, p, name) == z.chains[p][i].hash
  {
    if Encodable(name) {
      HashIsComputed(c, p, name);
    }
    hide Wire, Iterated, SortedCircle, Chained, HashOf;
    assert ValidChain(c, z, p);
    var n :| n in z.names && z.chains[p][i].hash == HashOf(c, p, n);
  }

  /** What a covering record says about its link. */
  lemma CoveringLink(c: Crypto, z: Zone, proof: ProofRecord, p: Params, i: nat, name: DnsName)
    requires ProvesLink(z, proof, p, i) && CoversName(c, proof, name) == Ok(true)
    ensures p in z.chains && i < |z.chains[p]| && Encodable(name) && OptOut(proof.nsec3) == z.chains[p][i].optOut
    ensures CoveredAt(BytesLess, Hashes(z.chains[p]), i, HashOf(c, p, name))
  {
    HashIsComputed(c, p, name);
    hide Wire, Iterated, HashOf;
    var owners, h := Hashes(z.chains[p]), HashOf(c, p, name);
    CompareBytesAntisymmetric(NextOwner(owners, i), owners[i]);
  }

  /** A circle that covers a hash does not list it, and covers it once. */
  lemma CoveredOnce(owners: seq<seq<byte>>, i: nat, h: seq<byte>)
    requires SortedCircle(BytesLess, owners) && CoveredAt(BytesLess, owners, i, h)
    ensures h !in owners && forall j: nat | CoveredAt(BytesLess, owners, j, h) :: j == i
  {
    BytesLessIsStrictTotal();
    hide Covers, BytesLess;
    if h in owners {
      var k :| 0 <= k < |owners| && owners[k] == h;
      OwnersAreUncovered(BytesLess, owners, i, k);
    }
    forall j: nat | CoveredAt(BytesLess, owners, j, h)
      ensures j == i
    {
      CoverIsUnique(BytesLess, owners, h, i, j);
    }
  }

  lemma ChainOf(c: Crypto, z: Zone, p: Params, name: DnsName)
    requires ValidZone(c, z) && p in z.chains
    ensures SortedCircle(BytesLess, Hashes(z.chains[p]))
    ensures name in z.names ==> Encodable(name) && Chained(c, p, z.chains[p], name)
  {
    hide SortedCircle, Chained, HashOf, WellFormed;
    assert ValidChain(c, z, p);
  }

  /** A link without opt-out that covers the hash of a name proves that the name does not exist. */
  lemma CoveredNameIsAbsent(c: Crypto, z: Zone, proof: ProofRecord, p: Params, i: nat, name: DnsName)
    requires ValidZone(c, z) && ProvesLink(z, proof, p, i)
    requires CoversName(c, proof, name) == Ok(true) && !OptOut(proof.nsec3)
    ensures name !in z.names
  {
    CoveringLink(c, z, proof, p, i, name);
    ChainOf(c, z, p, name);
    CoveredOnce(Hashes(z.chains[p]), i, HashOf(c, p, name));
    hide ValidZone, ProvesLink, CoversName, SortedCircle, CoveredAt, HashOf, Encodable;
  }

  /** Some link of the chain covers the hash of the name, without opt-out. */
  ghost predicate Spans(c: Crypto, z: Zone, p: Params, name: DnsName) {
    && p in z.chains && Encodable(name)
    && exists j: nat :: CoveredAt(BytesLess, Hashes(z.chains[p]), j, HashOf(c, p, name)) && !z.chains[p][j].optOut
  }

  lemma CoveringProofSpans(c: Crypto, z: Zone, proof: ProofRecord, p: Params, j: nat, name: DnsName)
    requires ProvesLink(z, proof, p, j) && CoversName(c, proof, name) == Ok(true) && !OptOut(proof.nsec3)
    ensures Spans(c, z, p, name)
  {
    CoveringLink(c, z, proof, p, j, name);
    hide ProvesLink, CoversName, CoveredAt, HashOf;
  }

  /** Records with the same parameters are links of one chain. */
  lemma SameParamsSameChain(z: Zone, a: ProofRecord, p: Params, i: nat, b: ProofRecord, q: Params, j: nat)
    requires ProvesLink(z, a, p, i) && ProvesLink(z, b, q, j) && SameParams(a.nsec3, b.nsec3)
    ensures p == q
  {
  }

  // ---------------------------------------------------------------- names between query and encloser

  lemma NextCloserIs(query: DnsName, encloser: DnsName)
    requires WellFormed(query) && IsStrictSubdomain(query, encloser)
    ensures NextCloserName(query, encloser) == Ok(query[|query| - |encloser| - 1..])
  {
    var k := |query| - |encloser| - 1;
    var next := query[k..];
    assert query == query[..k] + next;
    SizeOfPrefix(query[..k], next);
    FromAsciiInvertsJoin(next);
  }

  lemma WildcardChildIs(encloser: DnsName)
    requires WellFormed(encloser) && WildcardChild(encloser).Ok?
    ensures WildcardChild(encloser) == Ok([WILDCARD] + encloser)
  {
    var name := [WILDCARD] + encloser;
    assert name[1..] == encloser;
    assert IsStoredLabel(WILDCARD) by { assert Lower(WILDCARD) == WILDCARD; }
    assert forall i | 0 < i < |name| :: name[i] == encloser[i - 1];
    FromAsciiInvertsJoin(name);
  }

  lemma SuffixIsWellFormed(query: DnsName, parent: DnsName)
    requires WellFormed(query) && EndsWith(query, parent)
    ensures WellFormed(parent)
  {
    var k := |query| - |parent|;
    assert query == query[..k] + query[k..];
    SizeOfPrefix(query[..k], query[k..]);
  }

  /** If a name exists, so does each of its ancestors down to the apex. */
  lemma {:induction false} AncestorsExist(z: Zone, name: DnsName, k: nat)
    requires Names(z) && name in z.names && k + |z.apex| <= |name|
    ensures name[k..] in z.names
  {
    hide WellFormed;
    if k == 0 {
      assert name[0..] == name;
    } else {
      AncestorsExist(z, name, k - 1);
      assert name[k - 1..][1..] == name[k..];
    }
  }

  /** The encloser exists and no longer suffix of the query does. */
  ghost predicate IsClosestEncloser(z: Zone, query: DnsName, encloser: DnsName) {
    && encloser in z.names && IsStrictSubdomain(query, encloser)
    && forall k | 0 <= k < |query| - |encloser| :: query[k..] !in z.names
  }

  lemma ClosestFromNextCloser(z: Zone, query: DnsName, encloser: DnsName)
    requires Names(z) && encloser in z.names && IsStrictSubdomain(query, encloser)
    requires query[|query| - |encloser| - 1..] !in z.names
    ensures IsClosestEncloser(z, query, encloser) && query !in z.names
  {
    hide WellFormed;
    var last := |query| - |encloser| - 1;
    assert EndsWith(encloser, z.apex);
    forall k | 0 <= k <= last
      ensures query[k..] !in z.names
    {
      assert query[k..][last - k..] == query[last..];
      if query[k..] in z.names {
        AncestorsExist(z, query[k..], last - k);
      }
    }
    assert query[0..] == query;
  }

  // ---------------------------------------------------------------- soundness

  /** The bitmap of a name that speaks for the names below it: no DNAME (39), and no NS (2) without SOA (6). */
  predicate SpeaksBelow(maps: seq<byte>) {
    !HasType(maps, 39) && (HasType(maps, 2) ==> HasType(maps, 6))
  }

  lemma AuthoritySpeaksBelow(n: Nsec3Record)
    requires IsAuthoritative(n).Ok?
    ensures IsAuthoritative(n) == Ok(SpeaksBelow(n.maps))
  {
    hide HasType, ValidBitmaps;
  }

  /** A valid encloser proof: the encloser exists, speaks for names below it, and without opt-out is the closest one. */
  lemma ClosestEncloserIsSound(
    x: Context, z: Zone, query: DnsName, encloser: DnsName, closestSet: SignedSet, nextSet: SignedSet)
    returns (p: Params, i: nat)
    requires ValidZone(x.crypto, z) && Unforgeable(x, z) && x.signer == z.apex && NoCollision(x.crypto, z, encloser)
    requires WellFormed(query) && WellFormedNames(closestSet.records) && WellFormedNames(nextSet.records)
    requires ValidateClosestEncloser(x, query, encloser, closestSet, nextSet).Ok?
    requires ValidateClosestEncloser(x, query, encloser, closestSet, nextSet).value.Valid?
    ensures Encodable(encloser)
    ensures var proof := ValidateClosestEncloser(x, query, encloser, closestSet, nextSet).value;
      && ProvesLink(z, proof.closest, p, i)
      && z.chains[p][i].hash == HashOf(x.crypto, p, encloser) && SpeaksBelow(z.chains[p][i].maps)
      && encloser in z.names && WellFormed(encloser) && IsStrictSubdomain(query, encloser)
      && (!OptOut(proof.nextCloser.nsec3) ==>
            && IsClosestEncloser(z, query, encloser) && query !in z.names
            && Spans(x.crypto, z, p, query[|query| - |encloser| - 1..]))
  {
    hide ValidZone, Unforgeable, WellFormed, WellFormedNames, ValidateSet, ParseProofs, FindMatching, FindCovering,
         IsAuthoritative, NextCloserName, ProvesLink, Matches, CoversName, NoCollision, Names, IsClosestEncloser, EndsWith,
         HashOf, HasType, SpeaksBelow, Spans, SameParams, OptOut;
    var proof := ValidateClosestEncloser(x, query, encloser, closestSet, nextSet).value;
    var closestProofs := ParseProofs(closestSet.records, x.signer).value;
    FoundMatching(x.crypto, closestProofs, encloser, None);
    p, i := AcceptedProofIsLink(x, z, closestSet, proof.closest);
    ZoneNames(x.crypto, z);
    MatchedNameExists(x.crypto, z, proof.closest, p, i, encloser);
    AuthoritySpeaksBelow(proof.closest.nsec3);
    LinkOfProof(z, proof.closest, p, i);
    SuffixIsWellFormed(query, encloser);
    NextCloserIs(query, encloser);
    var nextName := NextCloserName(query, encloser).value;
    FoundCovering(x.crypto, ParseProofs(nextSet.records, x.signer).value, nextName, Some(proof.closest.nsec3));
    var p', j := AcceptedProofIsLink(x, z, nextSet, proof.nextCloser);
    SameParamsSameChain(z, proof.closest, p, i, proof.nextCloser, p', j);
    if !OptOut(proof.nextCloser.nsec3) {
      CoveringProofSpans(x.crypto, z, proof.nextCloser, p', j, nextName);
      CoveredNameIsAbsent(x.crypto, z, proof.nextCloser, p', j, nextName);
      ClosestFromNextCloser(z, query, encloser);
    }
  }

  /** A proof that stops early never reports Secure by itself. */
  lemma UndecidedIsNotSecure(x: Context, query: DnsName, encloser: DnsName, closestSet: SignedSet, nextSet: SignedSet)
    requires ValidateClosestEncloser(x, query, encloser, closestSet, nextSet).Ok?
    ensures ValidateClosestEncloser(x, query, encloser, closestSet, nextSet).value != Undecided(Secure)
  {
    hide ValidateSet, ParseProofs, FindMatching, FindCovering, IsAuthoritative, NextCloserName, IsStrictSubdomain;
  }

  lemma ZoneNames(c: Crypto, z: Zone)
    requires ValidZone(c, z)
    ensures Names(z)
  {
  }

  /**
   * Name error, section 8.4 of RFC 5155: for every zone, a Secure result implies that the given
   * closest encloser is the true one, that the query name does not exist and that the wildcard
   * that could have answered it does not exist; and all three are shown by one chain.
   */
  lemma NameErrorIsSound(
    x: Context, z: Zone, query: DnsName, encloser: DnsName,
    closestSet: SignedSet, nextSet: SignedSet, wildcardSet: SignedSet) returns (p: Params)
    requires ValidZone(x.crypto, z) && Unforgeable(x, z) && x.signer == z.apex && NoCollision(x.crypto, z, encloser)
    requires WellFormed(query)
    requires WellFormedNames(closestSet.records) && WellFormedNames(nextSet.records) && WellFormedNames(wildcardSet.records)
    requires ValidateNameError(x, query, encloser, closestSet, nextSet, wildcardSet) == Ok(Secure)
    ensures IsClosestEncloser(z, query, encloser)
    ensures query !in z.names
    ensures [WILDCARD] + encloser !in z.names
    ensures p in z.chains && Encodable(encloser) && HashOf(x.crypto, p, encloser) in Hashes(z.chains[p])
    ensures Spans(x.crypto, z, p, query[|query| - |encloser| - 1..]) && Spans(x.crypto, z, p, [WILDCARD] + encloser)
  {
    hide ValidZone, Unforgeable, WellFormed, WellFormedNames, ValidateSet, ParseProofs, FindCovering, OptOut,
         ValidateClosestEncloser, WildcardChild, ProvesLink, CoversName, NoCollision, Names, IsClosestEncloser,
         HashOf, Spans, SpeaksBelow, SameParams, EndsWith;
    UndecidedIsNotSecure(x, query, encloser, closestSet, nextSet);
    var i;
    p, i := ClosestEncloserIsSound(x, z, query, encloser, closestSet, nextSet);
    WildcardChildIs(encloser);
    var closest := ValidateClosestEncloser(x, query, encloser, closestSet, nextSet).value.closest;
    var wildcard, proofs := WildcardChild(encloser).value, ParseProofs(wildcardSet.records, x.signer).value;
    FoundCovering(x.crypto, proofs, wildcard, Some(closest.nsec3));
    var found := FindCovering(x.crypto, proofs, wildcard, Some(closest.nsec3)).value.value;
    var p', j := AcceptedProofIsLink(x, z, wildcardSet, found);
    CoveredNameIsAbsent(x.crypto, z, found, p', j, wildcard);
    SameParamsSameChain(z, closest, p, i, found, p', j);
    CoveringProofSpans(x.crypto, z, found, p', j, wildcard);
    LinkOfProof(z, closest, p, i);
    assert Hashes(z.chains[p])[i] == z.chains[p][i].hash;
  }

  /** The bitmap that the zone keeps for an existing name lacks the type and CNAME. */
  ghost predicate LacksTypeInZone(c: Crypto, z: Zone, name: DnsName, qtype: RecordType)
    requires Names(z)
  {
    && name in z.names
    && exists p, i :: p in z.chains && 0 <= i < |z.chains[p]| && z.chains[p][i].hash == HashOf(c, p, name)
         && !HasType(z.chains[p][i].maps, qtype.Code()) && !HasType(z.chains[p][i].maps, Cname.Code())
  }

  /** One chain keeps a bitmap for the name, without the type and without CNAME. */
  ghost predicate LacksInChain(c: Crypto, z: Zone, p: Params, name: DnsName, qtype: RecordType) {
    && p in z.chains && Encodable(name)
    && exists i :: 0 <= i < |z.chains[p]| && z.chains[p][i].hash == HashOf(c, p, name)
         && !HasType(z.chains[p][i].maps, qtype.Code()) && !HasType(z.chains[p][i].maps, Cname.Code())
  }

  lemma LackingLink(c: Crypto, z: Zone, proof: ProofRecord, p: Params, i: nat, name: DnsName, qtype: RecordType)
    requires ValidZone(c, z) && NoCollision(c, z, name) && ProvesLink(z, proof, p, i)
    requires Matches(c, proof, name) == Ok(true) && LacksType(proof.nsec3, qtype) == Ok(true)
    ensures LacksTypeInZone(c, z, name, qtype) && LacksInChain(c, z, p, name, qtype)
  {
    MatchedNameExists(c, z, proof, p, i, name);
    hide ValidZone, HasType, ValidBitmaps, RecordType.Code;
    ZoneNames(c, z);
    assert !HasType(z.chains[p][i].maps, qtype.Code()) && !HasType(z.chains[p][i].maps, Cname.Code());
  }

  /** No data under a wildcard, section 8.7: the wildcard is the right one, exists and lacks the type. */
  lemma WildcardNoDataIsSound(
    x: Context, z: Zone, query: DnsName, encloser: DnsName, qtype: RecordType,
    closestSet: SignedSet, nextSet: SignedSet, wildcardSet: SignedSet) returns (p: Params)
    requires ValidZone(x.crypto, z) && Unforgeable(x, z) && x.signer == z.apex
    requires NoCollision(x.crypto, z, encloser) && NoCollision(x.crypto, z, [WILDCARD] + encloser)
    requires WellFormed(query)
    requires WellFormedNames(closestSet.records) && WellFormedNames(nextSet.records) && WellFormedNames(wildcardSet.records)
    requires ValidateWildcardNoData(x, query, encloser, qtype, closestSet, nextSet, wildcardSet) == Ok(Secure)
    ensures IsClosestEncloser(z, query, encloser) && query !in z.names
    ensures LacksTypeInZone(x.crypto, z, [WILDCARD] + encloser, qtype)
    ensures LacksInChain(x.crypto, z, p, [WILDCARD] + encloser, qtype)
    ensures Spans(x.crypto, z, p, query[|query| - |encloser| - 1..])
  {
    hide ValidZone, Unforgeable, WellFormed, WellFormedNames, ValidateSet, ParseProofs, FindMatching, OptOut, LacksType,
         ValidateClosestEncloser, WildcardChild, ProvesLink, Matches, NoCollision, Names, IsClosestEncloser,
         LacksTypeInZone, LacksInChain, HashOf, Spans, SpeaksBelow, SameParams, EndsWith;
    UndecidedIsNotSecure(x, query, encloser, closestSet, nextSet);
    var i;
    p, i := ClosestEncloserIsSound(x, z, query, encloser, closestSet, nextSet);
    WildcardChildIs(encloser);
    var closest := ValidateClosestEncloser(x, query, encloser, closestSet, nextSet).value.closest;
    var wildcard, proofs := WildcardChild(encloser).value, ParseProofs(wildcardSet.records, x.signer).value;
    FoundMatching(x.crypto, proofs, wildcard, Some(closest.nsec3));
    var found := FindMatching(x.crypto, proofs, wildcard, Some(closest.nsec3)).value.value;
    var p', j := AcceptedProofIsLink(x, z, wildcardSet, found);
    SameParamsSameChain(z, closest, p, i, found, p', j);
    LackingLink(x.crypto, z, found, p', j, wildcard, qtype);
  }

  /** A wildcard answer, section 8.8: nothing between the encloser and the query exists. */
  lemma WildcardAnswerIsSound(x: Context, z: Zone, query: DnsName, encloser: DnsName, nextSet: SignedSet)
    requires ValidZone(x.crypto, z) && Unforgeable(x, z) && x.signer == z.apex
    requires WellFormed(query) && WellFormedNames(nextSet.records)
    requires ValidateWildcardAnswer(x, query, encloser, nextSet) == Ok(Secure)
    ensures IsStrictSubdomain(query, encloser) && query[|query| - |encloser| - 1..] !in z.names
    ensures EndsWith(encloser, z.apex) ==> query !in z.names
  {
    hide ValidZone, Unforgeable, WellFormed, WellFormedNames, ValidateSet, ParseProofs, FindCovering, OptOut,
         NextCloserName, ProvesLink, CoversName, Names, EndsWith;
    NextCloserIs(query, encloser);
    var nextName, proofs := NextCloserName(query, encloser).value, ParseProofs(nextSet.records, x.signer).value;
    FoundCovering(x.crypto, proofs, nextName, None);
    var found := FindCovering(x.crypto, proofs, nextName, None).value.value;
    var p, i := AcceptedProofIsLink(x, z, nextSet, found);
    CoveredNameIsAbsent(x.crypto, z, found, p, i, nextName);
    ZoneNames(x.crypto, z);
    if EndsWith(encloser, z.apex) && query in z.names {
      EndsWithLength(encloser, z.apex);
      AncestorsExist(z, query, |query| - |encloser| - 1);
    }
  }

  lemma EndsWithLength(name: DnsName, parent: DnsName)
    requires EndsWith(name, parent)
    ensures |name| >= |parent|
  {
  }

  lemma {:induction false} NoDataComesFrom(c: Crypto, proofs: seq<ProofRecord>, query: DnsName, qtype: RecordType)
    returns (proof: ProofRecord)
    requires NoDataIn(c, proofs, query, qtype) == Ok(Secure)
    ensures proof in proofs && Matches(c, proof, query) == Ok(true) && LacksType(proof.nsec3, qtype) == Ok(true)
  {
    hide Matches, LacksType;
    proof := proofs[0];
    if Matches(c, proof, query) != Ok(true) || LacksType(proof.nsec3, qtype) != Ok(true) {
      proof := NoDataComesFrom(c, proofs[1..], query, qtype);
    }
  }

  /** No data, section 8.5: the name exists and lacks the type. */
  lemma NoDataIsSound(x: Context, z: Zone, query: DnsName, qtype: RecordType, s: SignedSet)
    requires ValidZone(x.crypto, z) && Unforgeable(x, z) && x.signer == z.apex && NoCollision(x.crypto, z, query)
    requires WellFormedNames(s.records)
    requires ValidateNoData(x, query, qtype, s) == Ok(Secure)
    ensures LacksTypeInZone(x.crypto, z, query, qtype)
  {
    hide ValidZone, Unforgeable, WellFormedNames, ValidateSet, ParseProofs, ProvesLink, Matches, LacksType, NoCollision,
         Names, LacksTypeInZone, NoDataIn;
    var proof := NoDataComesFrom(x.crypto, ParseProofs(s.records, x.signer).value, query, qtype);
    var p, i := AcceptedProofIsLink(x, z, s, proof);
    LackingLink(x.crypto, z, proof, p, i, query, qtype);
  }
}
