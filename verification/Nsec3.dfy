/**
 * Hashed denial of existence (sections 8.3 to 8.8 of RFC 5155; rust/crates/hns-dnssec/src/lib.rs).
 */
module Nsec3 {
  import opened Prelude
  import opened WireName
  import opened WireMessage
  import opened NameText
  import opened Base32Hex
  import opened CircularOrder
  import opened Rdata
  import opened Signatures

  const SHA1: byte := 1
  const MAX_ITERATIONS: nat := 2500
  const WILDCARD: Label := [0x2a]

  // ---------------------------------------------------------------- hashing

  function Iterated(sha1: seq<byte> -> seq<byte>, input: seq<byte>, salt: seq<byte>, iterations: nat): seq<byte> {
    if iterations == 0 then sha1(input + salt) else sha1(Iterated(sha1, input, salt, iterations - 1) + salt)
  }

  function Nsec3Hash(c: Crypto, name: DnsName, algorithm: byte, iterations: nat, salt: seq<byte>)
    : Result<seq<byte>, DnssecError>
  {
    if algorithm != SHA1 then Err(UnsupportedDigest)
    else if iterations > MAX_ITERATIONS then Err(InvalidNsec3)
    else
      var wire :- Expect(EncodeName(name), NameEncoding);
      Ok(Iterated(c.sha1, wire, salt, iterations))
  }

  method ComputeNsec3Hash(c: Crypto, name: DnsName, algorithm: byte, iterations: nat, salt: seq<byte>)
    returns (r: Result<seq<byte>, DnssecError>)
    ensures r == Nsec3Hash(c, name, algorithm, iterations, salt)
  {
    if algorithm != SHA1 {
      return Err(UnsupportedDigest);
    }
    if iterations > MAX_ITERATIONS {
      return Err(InvalidNsec3);
    }
    var wire := EncodeWire(name, []);
    if wire.Err? {
      return Err(NameEncoding);
    }
    assert wire.value == EncodeName(name).value;
    var hash := c.sha1(wire.value + salt);
    for i := 0 to iterations
      invariant hash == Iterated(c.sha1, wire.value, salt, i)
    {
      hash := c.sha1(hash + salt);
    }
    return Ok(hash);
  }

  /** The rounds of section 5 of RFC 5155: the salt goes behind the name, and then behind each digest. */
  ghost predicate HashRounds(
    sha1: seq<byte> -> seq<byte>, wire: seq<byte>, salt: seq<byte>, iterations: nat, digests: seq<seq<byte>>)
  {
    && |digests| == iterations + 1 && digests[0] == sha1(wire + salt)
    && forall i | 0 <= i < iterations :: digests[i + 1] == sha1(digests[i] + salt)
  }

  lemma {:induction false} RoundsExist(sha1: seq<byte> -> seq<byte>, wire: seq<byte>, salt: seq<byte>, iterations: nat)
    returns (digests: seq<seq<byte>>)
    ensures HashRounds(sha1, wire, salt, iterations, digests)
  {
    if iterations == 0 {
      digests := [sha1(wire + salt)];
    } else {
      digests := RoundsExist(sha1, wire, salt, iterations - 1);
      digests := digests + [sha1(digests[iterations - 1] + salt)];
    }
  }

  lemma {:induction false} LastRound(
    sha1: seq<byte> -> seq<byte>, wire: seq<byte>, salt: seq<byte>, iterations: nat, digests: seq<seq<byte>>)
    requires HashRounds(sha1, wire, salt, iterations, digests)
    ensures Iterated(sha1, wire, salt, iterations) == digests[iterations]
  {
    if iterations > 0 {
      LastRound(sha1, wire, salt, iterations - 1, digests[..iterations]);
    }
  }

  /**
   * The hash of a name is the last digest of the rounds over its wire form. It is refused for any
   * algorithm but SHA-1, for more than 2500 iterations and for a label above 63 octets, in this order.
   */
  lemma Nsec3HashIsLastRound(
    c: Crypto, name: DnsName, algorithm: byte, iterations: nat, salt: seq<byte>, digests: seq<seq<byte>>)
    requires Encodable(name) ==> HashRounds(c.sha1, Wire(name), salt, iterations, digests)
    ensures Nsec3Hash(c, name, algorithm, iterations, salt)
      == if algorithm != 1 then Err(UnsupportedDigest)
         else if iterations > 2500 then Err(InvalidNsec3)
         else if exists i :: 0 <= i < |name| && |name[i]| > 63 then Err(NameEncoding)
         else Ok(digests[iterations])
  {
    hide Iterated, Wire;
    if Encodable(name) {
      LastRound(c.sha1, Wire(name), salt, iterations, digests);
    }
  }

  // ---------------------------------------------------------------- proof records

  function Usable(n: Nsec3Record): bool { n.algorithm == SHA1 && n.flags / 2 == 0 }

  function OptOut(n: Nsec3Record): bool { n.flags % 2 == 1 }

  function HasTypeChecked(n: Nsec3Record, rtype: RecordType): Result<bool, DnssecError> {
    if ValidBitmaps(n.maps, None) then Ok(HasType(n.maps, rtype.Code())) else Err(InvalidNsec3)
  }

  datatype ProofRecord = ProofRecord(nsec3: Nsec3Record, ownerHash: seq<byte>)

  function OwnerHash(owner: DnsName, zone: DnsName): Result<seq<byte>, DnssecError> {
    if |owner| != |zone| + 1 || owner[1..] != zone then Err(InvalidNsec3)
    else match Decode(owner[0]) case Some(hash) => Ok(hash) case None => Err(InvalidNsec3)
  }

  /** Unusable records and those of mixed hash lengths are passed over; malformed ones are errors. */
  function ParseProofs(rrset: seq<ResourceRecord>, zone: DnsName): Result<seq<ProofRecord>, DnssecError> {
    if rrset == [] then Ok([])
    else
      var front :- ParseProofs(rrset[..|rrset| - 1], zone);
      var record := rrset[|rrset| - 1];
      if record.rtype != Nsec3 then Ok(front)
      else
        var nsec3 :- ParseNsec3(record.rdata);
        if !Usable(nsec3) then Ok(front)
        else
          var hash :- OwnerHash(record.name, zone);
          if |hash| != |nsec3.nextHash| then Ok(front) else Ok(front + [ProofRecord(nsec3, hash)])
  }

  method CollectProofs(rrset: seq<ResourceRecord>, zone: DnsName) returns (r: Result<seq<ProofRecord>, DnssecError>)
    ensures r == ParseProofs(rrset, zone)
  {
    hide ParseNsec3, OwnerHash;
    var proofs: seq<ProofRecord> := [];
    for i := 0 to |rrset|
      invariant ParseProofs(rrset[..i], zone) == Ok(proofs)
    {
      assert rrset[..i + 1][..i] == rrset[..i];
      if rrset[i].rtype != Nsec3 {
        continue;
      }
      var nsec3 := ParseNsec3(rrset[i].rdata);
      if nsec3.Err? {
        ParseProofsFailure(rrset, zone, i + 1);
        return Err(nsec3.error);
      }
      if !Usable(nsec3.value) {
        continue;
      }
      var hash := OwnerHash(rrset[i].name, zone);
      if hash.Err? {
        ParseProofsFailure(rrset, zone, i + 1);
        return Err(hash.error);
      }
      if |hash.value| != |nsec3.value.nextHash| {
        continue;
      }
      proofs := proofs + [ProofRecord(nsec3.value, hash.value)];
    }
    assert rrset[..|rrset|] == rrset;
    return Ok(proofs);
  }

  lemma {:induction false} ParseProofsFailure(rrset: seq<ResourceRecord>, zone: DnsName, n: nat)
    requires n <= |rrset| && ParseProofs(rrset[..n], zone).Err?
    ensures ParseProofs(rrset, zone) == Err(ParseProofs(rrset[..n], zone).error)
    decreases |rrset|
  {
    hide ParseNsec3, OwnerHash;
    if n < |rrset| {
      assert rrset[..|rrset| - 1][..n] == rrset[..n];
      ParseProofsFailure(rrset[..|rrset| - 1], zone, n);
    } else {
      assert rrset[..n] == rrset;
    }
  }

  /** The record is an NSEC3 record one label below the zone, of SHA-1, with no unknown flag and hashes of one length. */
  predicate IsEvidence(r: ResourceRecord, zone: DnsName, proof: ProofRecord) {
    && r.rtype == Nsec3 && ParseNsec3(r.rdata) == Ok(proof.nsec3)
    && proof.nsec3.algorithm == 1 && proof.nsec3.flags <= 1
    && |r.name| == |zone| + 1 && r.name[1..] == zone && Decode(r.name[0]) == Some(proof.ownerHash)
    && |proof.ownerHash| == |proof.nsec3.nextHash|
  }

  /** The proof records are those of all such records, and no others. */
  lemma {:induction false} ProofsAreTheEvidence(rrset: seq<ResourceRecord>, zone: DnsName, proof: ProofRecord)
    requires ParseProofs(rrset, zone).Ok?
    ensures proof in ParseProofs(rrset, zone).value <==> exists r :: r in rrset && IsEvidence(r, zone, proof)
    decreases |rrset|
  {
    hide IsEvidence;
    if rrset != [] {
      var n := |rrset| - 1;
      assert rrset == rrset[..n] + [rrset[n]];
      LastEvidence(rrset, zone, proof);
      hide ParseProofs;
      ProofsAreTheEvidence(rrset[..n], zone, proof);
    }
  }

  lemma LastEvidence(rrset: seq<ResourceRecord>, zone: DnsName, proof: ProofRecord)
    requires rrset != [] && ParseProofs(rrset, zone).Ok?
    ensures ParseProofs(rrset[..|rrset| - 1], zone).Ok?
    ensures proof in ParseProofs(rrset, zone).value
      <==> proof in ParseProofs(rrset[..|rrset| - 1], zone).value || IsEvidence(rrset[|rrset| - 1], zone, proof)
  {
    hide ParseNsec3, Decode;
  }

  function SameParams(a: Nsec3Record, b: Nsec3Record): bool {
    a.algorithm == b.algorithm && a.iterations == b.iterations && a.salt == b.salt
  }

  function Matches(c: Crypto, p: ProofRecord, name: DnsName): Result<bool, DnssecError> {
    if !Usable(p.nsec3) then Ok(false)
    else
      var hash :- Nsec3Hash(c, name, p.nsec3.algorithm, p.nsec3.iterations, p.nsec3.salt);
      Ok(p.ownerHash == hash)
  }

  function CoversName(c: Crypto, p: ProofRecord, name: DnsName): Result<bool, DnssecError> {
    if !Usable(p.nsec3) then Ok(false)
    else
      var hash :- Nsec3Hash(c, name, p.nsec3.algorithm, p.nsec3.iterations, p.nsec3.salt);
      Ok(Nsec3CoversHash(p.ownerHash, p.nsec3.nextHash, hash))
  }

  function FindMatching(c: Crypto, proofs: seq<ProofRecord>, name: DnsName, expected: Option<Nsec3Record>)
    : Result<Option<ProofRecord>, DnssecError>
  {
    if proofs == [] then Ok(None)
    else if expected.Some? && !SameParams(expected.value, proofs[0].nsec3) then FindMatching(c, proofs[1..], name, expected)
    else
      var found :- Matches(c, proofs[0], name);
      if found then Ok(Some(proofs[0])) else FindMatching(c, proofs[1..], name, expected)
  }

  function FindCovering(c: Crypto, proofs: seq<ProofRecord>, name: DnsName, expected: Option<Nsec3Record>)
    : Result<Option<ProofRecord>, DnssecError>
  {
    if proofs == [] then Ok(None)
    else if expected.Some? && !SameParams(expected.value, proofs[0].nsec3) then FindCovering(c, proofs[1..], name, expected)
    else
      var found :- CoversName(c, proofs[0], name);
      if found then Ok(Some(proofs[0])) else FindCovering(c, proofs[1..], name, expected)
  }

  /** Where every record of the expected parameters can be hashed, one that matches is found if there is one. */
  lemma {:induction false} MatchingIff(c: Crypto, proofs: seq<ProofRecord>, name: DnsName, expected: Option<Nsec3Record>)
    requires forall p | p in proofs :: Matches(c, p, name).Ok?
    ensures FindMatching(c, proofs, name, expected).Ok?
    ensures FindMatching(c, proofs, name, expected).value.Some? <==> exists p ::
      p in proofs && (expected.Some? ==> SameParams(expected.value, p.nsec3)) && Matches(c, p, name) == Ok(true)
    decreases |proofs|
  {
    hide Matches, SameParams;
    if proofs != [] {
      assert proofs == [proofs[0]] + proofs[1..];
      MatchingIff(c, proofs[1..], name, expected);
    }
  }

  /** And one that covers the name. */
  lemma {:induction false} CoveringIff(c: Crypto, proofs: seq<ProofRecord>, name: DnsName, expected: Option<Nsec3Record>)
    requires forall p | p in proofs :: CoversName(c, p, name).Ok?
    ensures FindCovering(c, proofs, name, expected).Ok?
    ensures FindCovering(c, proofs, name, expected).value.Some? <==> exists p ::
      p in proofs && (expected.Some? ==> SameParams(expected.value, p.nsec3)) && CoversName(c, p, name) == Ok(true)
    decreases |proofs|
  {
    hide CoversName, SameParams;
    if proofs != [] {
      assert proofs == [proofs[0]] + proofs[1..];
      CoveringIff(c, proofs[1..], name, expected);
    }
  }

  // ---------------------------------------------------------------- names

  function IsStrictSubdomain(name: DnsName, parent: DnsName): bool {
    |name| > |parent| && EndsWith(name, parent)
  }

  function NextCloserName(query: DnsName, encloser: DnsName): Result<DnsName, DnssecError> {
    if !IsStrictSubdomain(query, encloser) then Err(NameEncoding)
    else Expect(FromAscii(Join(query[|query| - |encloser| - 1..])), NameEncoding)
  }

  function WildcardChild(encloser: DnsName): Result<DnsName, DnssecError> {
    Expect(FromAscii(if encloser == [] then WILDCARD else WILDCARD + [DOT] + Join(encloser)), NameEncoding)
  }

  /** A DNAME owner or a delegation point does not speak for names below it. */
  function IsAuthoritative(n: Nsec3Record): Result<bool, DnssecError> {
    var dname :- HasTypeChecked(n, Unknown(39));
    if dname then Ok(false)
    else
      var ns :- HasTypeChecked(n, Ns);
      if !ns then Ok(true)
      else
        var soa :- HasTypeChecked(n, Soa);
        Ok(soa)
  }

  // ---------------------------------------------------------------- validators

  /** What the validators are given besides the proof: the signer, its keys and the time. */
  datatype Context = Context(crypto: Crypto, signer: DnsName, dnskeys: seq<ResourceRecord>, now: nat)

  datatype SignedSet = SignedSet(records: seq<ResourceRecord>, rrsigs: seq<ResourceRecord>)

  function ValidateSet(x: Context, s: SignedSet): Result<Status, DnssecError> {
    if s.records == [] then Ok(Bogus)
    else ValidateRrsetSignature(x.crypto, x.signer, x.dnskeys, s.records, s.rrsigs, x.now)
  }

  datatype EncloserProof =
    | Valid(closest: ProofRecord, nextCloser: ProofRecord)
    | Undecided(status: Status)

  function ValidateClosestEncloser(x: Context, query: DnsName, encloser: DnsName, closestSet: SignedSet, nextSet: SignedSet)
    : Result<EncloserProof, DnssecError>
  {
    if !IsStrictSubdomain(query, encloser) then Ok(Undecided(Bogus))
    else
      var closestStatus :- ValidateSet(x, closestSet);
      if closestStatus != Secure then Ok(Undecided(closestStatus))
      else
        var closestProofs :- ParseProofs(closestSet.records, x.signer);
        var closest :- FindMatching(x.crypto, closestProofs, encloser, None);
        if closest.None? then Ok(Undecided(Bogus))
        else
          var authoritative :- IsAuthoritative(closest.value.nsec3);
          if !authoritative then Ok(Undecided(Bogus))
          else
            var nextName :- NextCloserName(query, encloser);
            var nextStatus :- ValidateSet(x, nextSet);
            if nextStatus != Secure then Ok(Undecided(nextStatus))
            else
              var nextProofs :- ParseProofs(nextSet.records, x.signer);
              var next :- FindCovering(x.crypto, nextProofs, nextName, Some(closest.value.nsec3));
              if next.None? then Ok(Undecided(Bogus)) else Ok(Valid(closest.value, next.value))
  }

  function ValidateNameError(
    x: Context, query: DnsName, encloser: DnsName, closestSet: SignedSet, nextSet: SignedSet, wildcardSet: SignedSet)
    : Result<Status, DnssecError>
  {
    var proof :- ValidateClosestEncloser(x, query, encloser, closestSet, nextSet);
    match proof
    case Undecided(status) => Ok(status)
    case Valid(closest, next) =>
      if OptOut(next.nsec3) then Ok(InsecureDelegation)
      else
        var wildcard :- WildcardChild(encloser);
        var status :- ValidateSet(x, wildcardSet);
        if status != Secure then Ok(status)
        else
          var proofs :- ParseProofs(wildcardSet.records, x.signer);
          var found :- FindCovering(x.crypto, proofs, wildcard, Some(closest.nsec3));
          if found.None? then Ok(Bogus)
          else if OptOut(found.value.nsec3) then Ok(InsecureDelegation)
          else Ok(Secure)
  }

  function LacksType(n: Nsec3Record, rtype: RecordType): Result<bool, DnssecError> {
    var has :- HasTypeChecked(n, rtype);
    if has then Ok(false)
    else
      var alias :- HasTypeChecked(n, Cname);
      Ok(!alias)
  }

  function ValidateWildcardNoData(
    x: Context, query: DnsName, encloser: DnsName, qtype: RecordType,
    closestSet: SignedSet, nextSet: SignedSet, wildcardSet: SignedSet): Result<Status, DnssecError>
  {
    var proof :- ValidateClosestEncloser(x, query, encloser, closestSet, nextSet);
    match proof
    case Undecided(status) => Ok(status)
    case Valid(closest, next) =>
      if OptOut(next.nsec3) then Ok(InsecureDelegation)
      else
        var wildcard :- WildcardChild(encloser);
        var status :- ValidateSet(x, wildcardSet);
        if status != Secure then Ok(status)
        else
          var proofs :- ParseProofs(wildcardSet.records, x.signer);
          var found :- FindMatching(x.crypto, proofs, wildcard, Some(closest.nsec3));
          if found.None? then Ok(Bogus)
          else
            var lacks :- LacksType(found.value.nsec3, qtype);
            Ok(if lacks then Secure else Bogus)
  }

  function ValidateWildcardAnswer(x: Context, query: DnsName, encloser: DnsName, nextSet: SignedSet): Result<Status, DnssecError> {
    if !IsStrictSubdomain(query, encloser) then Ok(Bogus)
    else
      var nextName :- NextCloserName(query, encloser);
      var status :- ValidateSet(x, nextSet);
      if status != Secure then Ok(status)
      else
        var proofs :- ParseProofs(nextSet.records, x.signer);
        var found :- FindCovering(x.crypto, proofs, nextName, None);
        if found.None? then Ok(Bogus)
        else if OptOut(found.value.nsec3) then Ok(InsecureDelegation)
        else Ok(Secure)
  }

  /** The first record that matches the name and lacks the type decides. */
  function NoDataIn(c: Crypto, proofs: seq<ProofRecord>, query: DnsName, qtype: RecordType): Result<Status, DnssecError> {
    if proofs == [] then Ok(Bogus)
    else
      var found :- Matches(c, proofs[0], query);
      if !found then NoDataIn(c, proofs[1..], query, qtype)
      else
        var lacks :- LacksType(proofs[0].nsec3, qtype);
        if lacks then Ok(Secure) else NoDataIn(c, proofs[1..], query, qtype)
  }

  function ValidateNoData(x: Context, query: DnsName, qtype: RecordType, set_: SignedSet): Result<Status, DnssecError> {
    var status :- ValidateSet(x, set_);
    if status != Secure then Ok(status)
    else
      var proofs :- ParseProofs(set_.records, x.signer);
      NoDataIn(x.crypto, proofs, query, qtype)
  }

  /** No data is Secure exactly if some record matches the name and lacks the type, wherever it stands. */
  lemma {:induction false} NoDataInIff(c: Crypto, proofs: seq<ProofRecord>, query: DnsName, qtype: RecordType)
    requires forall p | p in proofs :: Matches(c, p, query).Ok? && LacksType(p.nsec3, qtype).Ok?
    ensures NoDataIn(c, proofs, query, qtype) == Ok(
      if exists p :: p in proofs && Matches(c, p, query) == Ok(true) && LacksType(p.nsec3, qtype) == Ok(true) then Secure else Bogus)
    decreases |proofs|
  {
    hide Matches, LacksType;
    if proofs != [] {
      assert proofs == [proofs[0]] + proofs[1..];
      NoDataInIff(c, proofs[1..], query, qtype);
    }
  }
}
