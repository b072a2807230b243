/**
 * Denial of a DS record and of a signed delegation (sections 8.6 and 8.9 of RFC 5155;
 * rust/crates/hns-dnssec/src/lib.rs), and what their answers say about the zone.
 */
module Nsec3Delegation {
  import opened Prelude
  import opened WireName
  import opened WireMessage
  import opened CircularOrder
  import opened Rdata
  import opened Signatures
  import opened SignedData
  import opened Nsec3
  import opened Nsec3Soundness
  import opened Nsec3Completeness

  /** Without a matching record: an opt-out span over the next closer name leaves the delegation unsigned. */
  function ValidateOptOut(x: Context, name: DnsName, encloser: DnsName, closestSet: SignedSet, nextSet: SignedSet)
    : Result<Status, DnssecError>
  {
    var proof :- ValidateClosestEncloser(x, name, encloser, closestSet, nextSet);
    match proof
    case Undecided(status) => Ok(status)
    case Valid(_, next) => Ok(if OptOut(next.nsec3) then InsecureDelegation else Bogus)
  }

  function ValidateDsNoData(
    x: Context, query: DnsName, encloser: DnsName, matchingSet: SignedSet, closestSet: SignedSet, nextSet: SignedSet)
    : Result<Status, DnssecError>
  {
    if matchingSet.records == [] then ValidateOptOut(x, query, encloser, closestSet, nextSet)
    else
      var status :- ValidateSet(x, matchingSet);
      if status != Secure then Ok(status)
      else
        var proofs :- ParseProofs(matchingSet.records, x.signer);
        var found :- FindMatching(x.crypto, proofs, query, None);
        if found.None? then Ok(Bogus)
        else
          var lacks :- LacksType(found.value.nsec3, Ds);
          Ok(if lacks then Secure else Bogus)
  }

  /** The bitmap of a delegation point without DS. */
  function IsUnsignedDelegation(n: Nsec3Record): Result<bool, DnssecError> {
    var ns :- HasTypeChecked(n, Ns);
    if !ns then Ok(false)
    else
      var ds :- HasTypeChecked(n, Ds);
      if ds then Ok(false)
      else
        var soa :- HasTypeChecked(n, Soa);
        Ok(!soa)
  }

  function ValidateUnsignedReferral(
    x: Context, delegation: DnsName, encloser: DnsName, matchingSet: SignedSet, closestSet: SignedSet, nextSet: SignedSet)
    : Result<Status, DnssecError>
  {
    if matchingSet.records == [] then ValidateOptOut(x, delegation, encloser, closestSet, nextSet)
    else
      var status :- ValidateSet(x, matchingSet);
      if status != Secure then Ok(status)
      else
        var proofs :- ParseProofs(matchingSet.records, x.signer);
        var found :- FindMatching(x.crypto, proofs, delegation, None);
        if found.None? then Ok(Bogus)
        else
          var unsigned :- IsUnsignedDelegation(found.value.nsec3);
          Ok(if unsigned then InsecureDelegation else Bogus)
  }

  // ---------------------------------------------------------------- soundness

  /** A DS denial is Secure only for a name that exists without DS and CNAME. */
  lemma DsNoDataIsSound(
    x: Context, z: Zone, query: DnsName, encloser: DnsName,
    matchingSet: SignedSet, closestSet: SignedSet, nextSet: SignedSet)
    requires ValidZone(x.crypto, z) && Unforgeable(x, z) && x.signer == z.apex && NoCollision(x.crypto, z, query)
    requires WellFormedNames(matchingSet.records)
    requires ValidateDsNoData(x, query, encloser, matchingSet, closestSet, nextSet) == Ok(Secure)
    ensures LacksTypeInZone(x.crypto, z, query, Ds)
  {
    hide ValidZone, Unforgeable, WellFormedNames, ValidateSet, ParseProofs, ProvesLink, Matches, LacksType, NoCollision,
         Names, LacksTypeInZone, FindMatching, OptOut, ValidateClosestEncloser;
    if matchingSet.records == [] {
      UndecidedIsNotSecure(x, query, encloser, closestSet, nextSet);
    } else {
      var proofs := ParseProofs(matchingSet.records, x.signer).value;
      FoundMatching(x.crypto, proofs, query, None);
      var found := FindMatching(x.crypto, proofs, query, None).value.value;
      var p, i := AcceptedProofIsLink(x, z, matchingSet, found);
      LackingLink(x.crypto, z, found, p, i, query, Ds);
    }
  }

  /** A link with opt-out covers the name: the chain says nothing about it. */
  ghost predicate InOptOutSpan(c: Crypto, z: Zone, name: DnsName)
  {
    Encodable(name) && exists p: Params, j: nat ::
      p in z.chains && j < |z.chains[p]| && z.chains[p][j].optOut
      && CoveredAt(BytesLess, Hashes(z.chains[p]), j, HashOf(c, p, name)) && HashOf(c, p, name) !in Hashes(z.chains[p])
  }

  lemma {:induction false} TriedIsNeverInsecure(x: Context, s: SignedSet)
    ensures ValidateSet(x, s) != Ok(InsecureDelegation)
  {
    hide ParseDnskeys, ParseRrsigs, TrySignatures;
  }

  lemma UndecidedIsBogus(x: Context, query: DnsName, encloser: DnsName, closestSet: SignedSet, nextSet: SignedSet)
    requires ValidateClosestEncloser(x, query, encloser, closestSet, nextSet).Ok?
    requires ValidateClosestEncloser(x, query, encloser, closestSet, nextSet).value.Undecided?
    ensures ValidateClosestEncloser(x, query, encloser, closestSet, nextSet).value == Undecided(Bogus)
  {
    TriedIsNeverInsecure(x, closestSet);
    TriedIsNeverInsecure(x, nextSet);
    hide ValidateSet, ParseProofs, FindMatching, FindCovering, IsAuthoritative, NextCloserName, IsStrictSubdomain;
  }

  lemma OptOutCovers(c: Crypto, z: Zone, proof: ProofRecord, p: Params, j: nat, name: DnsName)
    requires ValidZone(c, z) && ProvesLink(z, proof, p, j) && CoversName(c, proof, name) == Ok(true) && OptOut(proof.nsec3)
    ensures InOptOutSpan(c, z, name)
  {
    CoveringLink(c, z, proof, p, j, name);
    ChainOf(c, z, p, name);
    CoveredOnce(Hashes(z.chains[p]), j, HashOf(c, p, name));
    hide ValidZone, ProvesLink, CoversName, SortedCircle, CoveredAt, HashOf, Encodable;
  }

  /** Insecure without a matching record: the encloser exists and an opt-out span covers the next closer name. */
  lemma OptOutIsSound(
    x: Context, z: Zone, name: DnsName, encloser: DnsName, closestSet: SignedSet, nextSet: SignedSet)
    requires ValidZone(x.crypto, z) && Unforgeable(x, z) && x.signer == z.apex && NoCollision(x.crypto, z, encloser)
    requires WellFormed(name) && WellFormedNames(closestSet.records) && WellFormedNames(nextSet.records)
    requires ValidateOptOut(x, name, encloser, closestSet, nextSet) == Ok(InsecureDelegation)
    ensures encloser in z.names && IsStrictSubdomain(name, encloser)
    ensures InOptOutSpan(x.crypto, z, name[|name| - |encloser| - 1..])
  {
    hide ValidZone, Unforgeable, WellFormed, WellFormedNames, ValidateClosestEncloser, ProvesLink, NoCollision, Names,
         IsClosestEncloser, InOptOutSpan, OptOut, CoversName;
    var proof := ValidateClosestEncloser(x, name, encloser, closestSet, nextSet).value;
    if proof.Undecided? {
      UndecidedIsBogus(x, name, encloser, closestSet, nextSet);
    } else {
      var p, i := ClosestEncloserIsSound(x, z, name, encloser, closestSet, nextSet);
      var p', j := NextCloserLink(x, z, name, encloser, closestSet, nextSet);
      OptOutCovers(x.crypto, z, proof.nextCloser, p', j, name[|name| - |encloser| - 1..]);
    }
  }

  /** The next closer record of a valid proof is a link that covers the next closer name. */
  lemma NextCloserLink(
    x: Context, z: Zone, name: DnsName, encloser: DnsName, closestSet: SignedSet, nextSet: SignedSet)
    returns (p: Params, j: nat)
    requires Unforgeable(x, z) && x.signer == z.apex && WellFormed(name) && WellFormedNames(nextSet.records)
    requires ValidateClosestEncloser(x, name, encloser, closestSet, nextSet).Ok?
    requires ValidateClosestEncloser(x, name, encloser, closestSet, nextSet).value.Valid?
    ensures IsStrictSubdomain(name, encloser)
    ensures var next := ValidateClosestEncloser(x, name, encloser, closestSet, nextSet).value.nextCloser;
      ProvesLink(z, next, p, j) && CoversName(x.crypto, next, name[|name| - |encloser| - 1..]) == Ok(true)
  {
    hide Unforgeable, WellFormed, WellFormedNames, ValidateSet, ParseProofs, FindMatching, FindCovering,
         IsAuthoritative, NextCloserName, ProvesLink, CoversName, EndsWith;
    var proof := ValidateClosestEncloser(x, name, encloser, closestSet, nextSet).value;
    NextCloserIs(name, encloser);
    var nextName := NextCloserName(name, encloser).value;
    FoundCovering(x.crypto, ParseProofs(nextSet.records, x.signer).value, nextName, Some(proof.closest.nsec3));
    p, j := AcceptedProofIsLink(x, z, nextSet, proof.nextCloser);
  }

  /** The bitmap of an existing name says: a delegation, unsigned, and not the apex. */
  ghost predicate UnsignedInZone(c: Crypto, z: Zone, name: DnsName)
    requires Names(z)
  {
    && name in z.names
    && exists p, i :: p in z.chains && 0 <= i < |z.chains[p]| && z.chains[p][i].hash == HashOf(c, p, name)
         && HasType(z.chains[p][i].maps, Ns.Code()) && !HasType(z.chains[p][i].maps, Ds.Code())
         && !HasType(z.chains[p][i].maps, Soa.Code())
  }

  lemma UnsignedLink(c: Crypto, z: Zone, proof: ProofRecord, p: Params, i: nat, name: DnsName)
    requires ValidZone(c, z) && NoCollision(c, z, name) && ProvesLink(z, proof, p, i)
    requires Matches(c, proof, name) == Ok(true) && IsUnsignedDelegation(proof.nsec3) == Ok(true)
    ensures UnsignedInZone(c, z, name)
  {
    MatchedNameExists(c, z, proof, p, i, name);
    hide ValidZone, HasType, ValidBitmaps, RecordType.Code;
    ZoneNames(c, z);
    assert HasType(z.chains[p][i].maps, Ns.Code()) && !HasType(z.chains[p][i].maps, Ds.Code());
  }

  /**
   * A referral is reported as unsigned only for a delegation that the zone lists without DS, or
   * whose next closer name lies in an opt-out span; it is never reported as Secure.
   */
  lemma UnsignedReferralIsSound(
    x: Context, z: Zone, delegation: DnsName, encloser: DnsName,
    matchingSet: SignedSet, closestSet: SignedSet, nextSet: SignedSet)
    requires ValidZone(x.crypto, z) && Unforgeable(x, z) && x.signer == z.apex
    requires NoCollision(x.crypto, z, delegation) && NoCollision(x.crypto, z, encloser)
    requires WellFormed(delegation)
    requires WellFormedNames(matchingSet.records) && WellFormedNames(closestSet.records) && WellFormedNames(nextSet.records)
    ensures var r := ValidateUnsignedReferral(x, delegation, encloser, matchingSet, closestSet, nextSet);
      && r != Ok(Secure)
      && (r == Ok(InsecureDelegation) ==>
            if matchingSet.records != [] then UnsignedInZone(x.crypto, z, delegation)
            else encloser in z.names && IsStrictSubdomain(delegation, encloser)
                 && InOptOutSpan(x.crypto, z, delegation[|delegation| - |encloser| - 1..]))
  {
    hide ValidZone, Unforgeable, WellFormed, WellFormedNames, ValidateSet, ParseProofs, ProvesLink, Matches, NoCollision,
         Names, UnsignedInZone, InOptOutSpan, FindMatching, OptOut, ValidateClosestEncloser, IsUnsignedDelegation,
         IsStrictSubdomain;
    var r := ValidateUnsignedReferral(x, delegation, encloser, matchingSet, closestSet, nextSet);
    if matchingSet.records == [] {
      if r.Ok? {
        UndecidedIsNotSecure(x, delegation, encloser, closestSet, nextSet);
      }
      if r == Ok(InsecureDelegation) {
        OptOutIsSound(x, z, delegation, encloser, closestSet, nextSet);
      }
    } else {
      TriedIsNeverInsecure(x, matchingSet);
      if r == Ok(InsecureDelegation) {
        var proofs := ParseProofs(matchingSet.records, x.signer).value;
        FoundMatching(x.crypto, proofs, delegation, None);
        var found := FindMatching(x.crypto, proofs, delegation, None).value.value;
        var p, i := AcceptedProofIsLink(x, z, matchingSet, found);
        UnsignedLink(x.crypto, z, found, p, i, delegation);
      }
    }
  }

  // ---------------------------------------------------------------- the answers to honest sets

  /** Without a matching record, exactly: Insecure where the span over the next closer name opts out. */
  lemma OptOutAnswer(
    x: Context, z: Zone, p: Params, name: DnsName, encloser: DnsName, closestSet: SignedSet, nextSet: SignedSet, i: nat, j: nat)
    requires HonestEncloser(x, z, p, name, encloser, closestSet, nextSet, i, j)
    ensures p in z.chains && i < |z.chains[p]| && j < |z.chains[p]|
    ensures ValidateOptOut(x, name, encloser, closestSet, nextSet)
      == Ok(if SpeaksBelow(z.chains[p][i].maps) && z.chains[p][j].optOut then InsecureDelegation else Bogus)
  {
    EncloserAnswer(x, z, p, name, encloser, closestSet, nextSet, i, j);
    OptOutOfLink(z, p, j);
    hide HonestEncloser, ValidateClosestEncloser, SpeaksBelow, OptOut, LinkRecord;
  }

  /** The denial of a DS record, exactly: the bitmap of the name decides. */
  lemma DsNoDataAnswer(
    x: Context, z: Zone, p: Params, i: nat, query: DnsName, encloser: DnsName,
    matchingSet: SignedSet, closestSet: SignedSet, nextSet: SignedSet)
    requires FixedLength(x.crypto) && ValidZone(x.crypto, z) && x.signer == z.apex && p.iterations as nat <= MAX_ITERATIONS
    requires Honest(x, z, matchingSet, p, i) && IsLinkOf(x.crypto, z, p, i, query)
    ensures ValidateDsNoData(x, query, encloser, matchingSet, closestSet, nextSet)
      == Ok(if DeniesType(x.crypto, z, p, i, query, Ds) then Secure else Bogus)
  {
    var _ := HonestSearch(x, z, matchingSet, p, i, query, None);
    LacksOfLink(z, p, i, Ds);
    hide FixedLength, ValidZone, ValidateSet, ParseProofs, FindMatching, IsLinkOf, LinkRecord, LacksType, HasType, ValidateOptOut,
         StatesLinkAt;
  }

  /** An unsigned referral, exactly: the bitmap of the delegation has NS (2), and neither DS (43) nor SOA (6). */
  lemma UnsignedReferralAnswer(
    x: Context, z: Zone, p: Params, i: nat, delegation: DnsName, encloser: DnsName,
    matchingSet: SignedSet, closestSet: SignedSet, nextSet: SignedSet)
    requires FixedLength(x.crypto) && ValidZone(x.crypto, z) && x.signer == z.apex && p.iterations as nat <= MAX_ITERATIONS
    requires Honest(x, z, matchingSet, p, i) && IsLinkOf(x.crypto, z, p, i, delegation)
    ensures var maps := z.chains[p][i].maps;
      ValidateUnsignedReferral(x, delegation, encloser, matchingSet, closestSet, nextSet)
      == Ok(if HasType(maps, 2) && !HasType(maps, 43) && !HasType(maps, 6) then InsecureDelegation else Bogus)
  {
    assert Encodable(delegation);
    hide *;
    var _ := HonestSearch(x, z, matchingSet, p, i, delegation, None);
    UnsignedOfLink(z, p, i);
    ReferralFrom(x, delegation, encloser, matchingSet, closestSet, nextSet, ProofOf(z, p, i));
  }

  lemma UnsignedOfLink(z: Zone, p: Params, i: nat)
    requires p in z.chains && i < |z.chains[p]| && ValidBitmaps(z.chains[p][i].maps, None)
    ensures var maps := z.chains[p][i].maps;
      IsUnsignedDelegation(ProofOf(z, p, i).nsec3) == Ok(HasType(maps, 2) && !HasType(maps, 43) && !HasType(maps, 6))
  {
    TypesOfLink(z, p, i, Ns);
    TypesOfLink(z, p, i, Ds);
    TypesOfLink(z, p, i, Soa);
    hide HasTypeChecked, HasType, ValidBitmaps, LinkRecord;
  }

  lemma ReferralFrom(
    x: Context, delegation: DnsName, encloser: DnsName,
    matchingSet: SignedSet, closestSet: SignedSet, nextSet: SignedSet, found: ProofRecord)
    requires matchingSet.records != [] && ValidateSet(x, matchingSet) == Ok(Secure)
    requires ParseProofs(matchingSet.records, x.signer) == Ok([found]) && IsUnsignedDelegation(found.nsec3).Ok?
    requires FindMatching(x.crypto, [found], delegation, None) == Ok(Some(found))
    ensures ValidateUnsignedReferral(x, delegation, encloser, matchingSet, closestSet, nextSet)
      == Ok(if IsUnsignedDelegation(found.nsec3).value then InsecureDelegation else Bogus)
  {
    hide ValidateSet, ParseProofs, FindMatching, IsUnsignedDelegation, ValidateOptOut;
  }
}
