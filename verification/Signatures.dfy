/**
 * Accepting an RRset by its signatures (rust/crates/hns-dnssec/src/lib.rs). Hash and signature
 * algorithms stay uninterpreted.
 */
module Signatures {
  import opened Prelude
  import opened WireName
  import opened WireMessage
  import opened Rdata
  import opened SignedData

  /**
   * `precheck` is what an algorithm rejects before it needs the data: an unsupported algorithm, a
   * malformed key or signature. `holds` is the signature equation itself.
   */
  datatype Crypto = Crypto(
    sha1: seq<byte> -> seq<byte>,
    precheck: (byte, seq<byte>, seq<byte>) -> Option<DnssecError>,
    holds: (byte, seq<byte>, seq<byte>, seq<byte>) -> bool)

  datatype Status = Secure | InsecureDelegation | Bogus

  /** Even positions count as high octets, odd ones as low. */
  function TagSum(rdata: seq<byte>): nat {
    if rdata == [] then 0
    else
      var n := |rdata| - 1;
      TagSum(rdata[..n]) + if n % 2 == 0 then rdata[n] * 0x100 else rdata[n] as int
  }

  function KeyTag(rdata: seq<byte>): u16 {
    var sum := TagSum(rdata);
    (sum + sum / 0x1_0000 % 0x1_0000) % 0x1_0000
  }

  lemma {:induction false} TagSumFits(rdata: seq<byte>)
    ensures TagSum(rdata) <= |rdata| * 0xff00
  {
    if rdata != [] {
      TagSumFits(rdata[..|rdata| - 1]);
    }
  }

  /** The sum of the 16-bit words, most significant octet first; a last single octet is the high one of its word. */
  function WordSum(rdata: seq<byte>): nat
    decreases |rdata|
  {
    if rdata == [] then 0
    else if |rdata| == 1 then BigEndian([rdata[0], 0])
    else BigEndian(rdata[..2]) + WordSum(rdata[2..])
  }

  lemma TwoOctets(a: byte, b: byte)
    ensures BigEndian([a, b]) == a * 0x100 + b
  {
    assert [a, b][..1] == [a] && [a][..0] == [] && BigEndian([]) == 0;
    assert BigEndian([a]) == a;
  }

  lemma {:induction false} TagSumFromFront(rdata: seq<byte>)
    requires |rdata| >= 2
    ensures TagSum(rdata) == rdata[0] * 0x100 + rdata[1] + TagSum(rdata[2..])
  {
    if |rdata| == 2 {
      assert rdata[..1][..0] == [] && TagSum(rdata[..1]) == rdata[0] as int * 0x100;
    } else {
      var n := |rdata| - 1;
      TagSumFromFront(rdata[..n]);
      assert rdata[..n][2..] == rdata[2..][..n - 2];
    }
  }

  /** The key tag is the sum of the words with its carry added once (appendix B of RFC 4034). */
  lemma {:induction false} TagIsWordSum(rdata: seq<byte>)
    ensures TagSum(rdata) == WordSum(rdata)
    ensures KeyTag(rdata) == (WordSum(rdata) + WordSum(rdata) / 0x1_0000 % 0x1_0000) % 0x1_0000
    decreases |rdata|
  {
    if |rdata| == 1 {
      TwoOctets(rdata[0], 0);
      assert rdata[..0] == [];
    } else if |rdata| >= 2 {
      TagSumFromFront(rdata);
      TwoOctets(rdata[0], rdata[1]);
      assert rdata[..2] == [rdata[0], rdata[1]];
      TagIsWordSum(rdata[2..]);
    }
  }

  /** The 32-bit accumulator never overflows on RDATA of at most 65535 octets. */
  method ComputeKeyTag(rdata: seq<byte>) returns (tag: u16)
    requires |rdata| <= 0xffff
    ensures tag == KeyTag(rdata)
  {
    var accumulator: u32 := 0;
    for i := 0 to |rdata|
      invariant accumulator == TagSum(rdata[..i])
    {
      assert rdata[..i + 1][..i] == rdata[..i];
      TagSumFits(rdata[..i + 1]);
      if i % 2 == 0 {
        accumulator := accumulator + rdata[i] as u32 * 0x100;
      } else {
        accumulator := accumulator + rdata[i] as u32;
      }
    }
    assert rdata[..|rdata|] == rdata;
    TagSumFits(rdata);
    accumulator := accumulator + accumulator / 0x1_0000 % 0x1_0000;
    tag := (accumulator % 0x1_0000) as u16;
  }

  function VerifyRrsig(c: Crypto, rrset: seq<ResourceRecord>, rrsig: RrsigRecord, key: DnskeyRecord, now: nat)
    : Result<bool, DnssecError>
  {
    if key.flags / 0x100 % 2 == 0 then Ok(false)
    else if rrsig.algorithm != key.algorithm || rrsig.keyTag != KeyTag(key.rdata) then Ok(false)
    else match c.precheck(key.algorithm, key.publicKey, rrsig.signature)
      case Some(e) => Err(e)
      case None =>
        var data :- SignedBytes(rrset, rrsig, now);
        Ok(c.holds(key.algorithm, key.publicKey, data, rrsig.signature))
  }

  function ParseDnskeys(rrs: seq<ResourceRecord>): Result<seq<DnskeyRecord>, DnssecError> {
    if rrs == [] then Ok([])
    else if rrs[0].rtype != Dnskey then ParseDnskeys(rrs[1..])
    else
      var first :- ParseDnskey(rrs[0].rdata);
      var rest :- ParseDnskeys(rrs[1..]);
      Ok([first] + rest)
  }

  function ParseRrsigs(rrs: seq<ResourceRecord>, owner: DnsName, class_: u16): Result<seq<RrsigRecord>, DnssecError> {
    if rrs == [] then Ok([])
    else if rrs[0].rtype != Rrsig || rrs[0].name != owner || rrs[0].class_ != class_ then ParseRrsigs(rrs[1..], owner, class_)
    else
      var first :- ParseRrsig(rrs[0].rdata);
      var rest :- ParseRrsigs(rrs[1..], owner, class_);
      Ok([first] + rest)
  }

  /** The RRSIGs read are those at the given owner and class, and no others. */
  lemma {:induction false} RrsigsIff(rrs: seq<ResourceRecord>, owner: DnsName, class_: u16, s: RrsigRecord)
    requires ParseRrsigs(rrs, owner, class_).Ok?
    ensures s in ParseRrsigs(rrs, owner, class_).value <==>
      exists r :: r in rrs && r.rtype == Rrsig && r.name == owner && r.class_ == class_ && ParseRrsig(r.rdata) == Ok(s)
    decreases |rrs|
  {
    hide ParseRrsig;
    if rrs != [] {
      assert rrs == [rrs[0]] + rrs[1..];
      RrsigsIff(rrs[1..], owner, class_, s);
    }
  }

  /** The keys read are those of all DNSKEY records. */
  lemma {:induction false} DnskeysIff(rrs: seq<ResourceRecord>, key: DnskeyRecord)
    requires ParseDnskeys(rrs).Ok?
    ensures key in ParseDnskeys(rrs).value <==> exists r :: r in rrs && r.rtype == Dnskey && ParseDnskey(r.rdata) == Ok(key)
    decreases |rrs|
  {
    hide ParseDnskey;
    if rrs != [] {
      assert rrs == [rrs[0]] + rrs[1..];
      DnskeysIff(rrs[1..], key);
    }
  }

  /** Either some signature held, or none did and the first error seen, if any, is kept. */
  datatype Attempt = Accepted | Rejected(deferred: Option<DnssecError>)

  function TryKeys(c: Crypto, rrset: seq<ResourceRecord>, rrsig: RrsigRecord, keys: seq<DnskeyRecord>, now: nat,
                   deferred: Option<DnssecError>): Attempt
    decreases |keys|
  {
    if keys == [] then Rejected(deferred)
    else if keys[0].algorithm != rrsig.algorithm || KeyTag(keys[0].rdata) != rrsig.keyTag then
      TryKeys(c, rrset, rrsig, keys[1..], now, deferred)
    else match VerifyRrsig(c, rrset, rrsig, keys[0], now)
      case Ok(true) => Accepted
      case Ok(false) => TryKeys(c, rrset, rrsig, keys[1..], now, deferred)
      case Err(e) => TryKeys(c, rrset, rrsig, keys[1..], now, if deferred.Some? then deferred else Some(e))
  }

  function TrySignatures(c: Crypto, rrset: seq<ResourceRecord>, signer: DnsName, rtype: RecordType,
                         rrsigs: seq<RrsigRecord>, keys: seq<DnskeyRecord>, now: nat, deferred: Option<DnssecError>): Attempt
    decreases |rrsigs|
  {
    if rrsigs == [] then Rejected(deferred)
    else if rrsigs[0].typeCovered != rtype || rrsigs[0].signerName != signer then
      TrySignatures(c, rrset, signer, rtype, rrsigs[1..], keys, now, deferred)
    else match TryKeys(c, rrset, rrsigs[0], keys, now, deferred)
      case Accepted => Accepted
      case Rejected(d) => TrySignatures(c, rrset, signer, rtype, rrsigs[1..], keys, now, d)
  }

  function ValidateRrsetSignature(
    c: Crypto, signer: DnsName, dnskeyRrset: seq<ResourceRecord>, rrset: seq<ResourceRecord>,
    rrsigRrset: seq<ResourceRecord>, now: nat): Result<Status, DnssecError>
  {
    if rrset == [] then Err(InvalidRrset)
    else
      var keys :- ParseDnskeys(dnskeyRrset);
      var rrsigs :- ParseRrsigs(rrsigRrset, rrset[0].name, rrset[0].class_);
      match TrySignatures(c, rrset, signer, rrset[0].rtype, rrsigs, keys, now, None)
      case Accepted => Ok(Secure)
      case Rejected(Some(e)) => Err(e)
      case Rejected(None) => Ok(Bogus)
  }

  // ---------------------------------------------------------------- what acceptance means

  /** A signature by a zone key of the RRset that holds over the RRset's signed data. */
  ghost predicate Signed(c: Crypto, rrset: seq<ResourceRecord>, rrsig: RrsigRecord, key: DnskeyRecord, now: nat) {
    && SignedBytes(rrset, rrsig, now).Ok?
    && key.flags / 0x100 % 2 == 1
    && c.holds(key.algorithm, key.publicKey, SignedBytes(rrset, rrsig, now).value, rrsig.signature)
  }

  /** A signature of the signer over this type, that this key verifies. */
  ghost predicate Verifies(
    c: Crypto, rrset: seq<ResourceRecord>, signer: DnsName, rtype: RecordType, rrsig: RrsigRecord, key: DnskeyRecord, now: nat)
  {
    && rrsig.typeCovered == rtype && rrsig.signerName == signer
    && key.algorithm == rrsig.algorithm && KeyTag(key.rdata) == rrsig.keyTag
    && VerifyRrsig(c, rrset, rrsig, key, now) == Ok(true)
  }

  lemma {:induction false} TryKeysAccepts(
    c: Crypto, rrset: seq<ResourceRecord>, rrsig: RrsigRecord, keys: seq<DnskeyRecord>, now: nat, deferred: Option<DnssecError>)
    returns (key: DnskeyRecord)
    requires TryKeys(c, rrset, rrsig, keys, now, deferred) == Accepted
    ensures key in keys && Signed(c, rrset, rrsig, key, now)
    ensures Verifies(c, rrset, rrsig.signerName, rrsig.typeCovered, rrsig, key, now)
    decreases |keys|
  {
    hide SignedBytes, TagSum;
    key := keys[0];
    if keys[0].algorithm != rrsig.algorithm || KeyTag(keys[0].rdata) != rrsig.keyTag
      || VerifyRrsig(c, rrset, rrsig, keys[0], now) != Ok(true) {
      var d := if keys[0].algorithm == rrsig.algorithm && KeyTag(keys[0].rdata) == rrsig.keyTag
                 && VerifyRrsig(c, rrset, rrsig, keys[0], now).Err? && deferred.None?
               then Some(VerifyRrsig(c, rrset, rrsig, keys[0], now).error) else deferred;
      key := TryKeysAccepts(c, rrset, rrsig, keys[1..], now, d);
    }
  }

  lemma {:induction false} TrySignaturesAccepts(
    c: Crypto, rrset: seq<ResourceRecord>, signer: DnsName, rtype: RecordType,
    rrsigs: seq<RrsigRecord>, keys: seq<DnskeyRecord>, now: nat, deferred: Option<DnssecError>)
    returns (rrsig: RrsigRecord, key: DnskeyRecord)
    requires TrySignatures(c, rrset, signer, rtype, rrsigs, keys, now, deferred) == Accepted
    ensures rrsig in rrsigs && key in keys && Signed(c, rrset, rrsig, key, now)
    ensures Verifies(c, rrset, signer, rtype, rrsig, key, now)
    decreases |rrsigs|
  {
    hide Signed, TryKeys, Verifies;
    if rrsigs[0].typeCovered != rtype || rrsigs[0].signerName != signer {
      rrsig, key := TrySignaturesAccepts(c, rrset, signer, rtype, rrsigs[1..], keys, now, deferred);
    } else {
      match TryKeys(c, rrset, rrsigs[0], keys, now, deferred) {
        case Accepted =>
          rrsig := rrsigs[0];
          key := TryKeysAccepts(c, rrset, rrsig, keys, now, deferred);
        case Rejected(d) =>
          rrsig, key := TrySignaturesAccepts(c, rrset, signer, rtype, rrsigs[1..], keys, now, d);
      }
    }
  }

  lemma {:induction false} ParsedRrsigsAreWellFormed(rrs: seq<ResourceRecord>, owner: DnsName, class_: u16)
    requires ParseRrsigs(rrs, owner, class_).Ok?
    ensures forall s | s in ParseRrsigs(rrs, owner, class_).value :: WellFormedRrsig(s)
    decreases |rrs|
  {
    hide WellFormedRrsig, ParseRrsig;
    if rrs != [] {
      if rrs[0].rtype != Rrsig || rrs[0].name != owner || rrs[0].class_ != class_ {
        ParsedRrsigsAreWellFormed(rrs[1..], owner, class_);
      } else {
        ParsedRrsigsAreWellFormed(rrs[1..], owner, class_);
        ParsedRrsigIsWellFormed(rrs[0].rdata);
      }
    }
  }

  /** An accepted RRset is signed by one of the given keys with one of the given RRSIGs of the signer. */
  lemma AcceptedIsSigned(
    c: Crypto, signer: DnsName, dnskeyRrset: seq<ResourceRecord>, rrset: seq<ResourceRecord>,
    rrsigRrset: seq<ResourceRecord>, now: nat) returns (rrsig: RrsigRecord, key: DnskeyRecord)
    requires ValidateRrsetSignature(c, signer, dnskeyRrset, rrset, rrsigRrset, now) == Ok(Secure)
    ensures rrset != [] && ParseRrsigs(rrsigRrset, rrset[0].name, rrset[0].class_).Ok?
    ensures rrsig in ParseRrsigs(rrsigRrset, rrset[0].name, rrset[0].class_).value && WellFormedRrsig(rrsig)
    ensures ParseDnskeys(dnskeyRrset).Ok? && key in ParseDnskeys(dnskeyRrset).value
    ensures Signed(c, rrset, rrsig, key, now)
    ensures rrsig.signerName == signer && Verifies(c, rrset, signer, rrset[0].rtype, rrsig, key, now)
  {
    hide Signed, TrySignatures, WellFormedRrsig, ParseDnskeys, ParseRrsigs;
    var keys := ParseDnskeys(dnskeyRrset).value;
    var rrsigs := ParseRrsigs(rrsigRrset, rrset[0].name, rrset[0].class_).value;
    rrsig, key := TrySignaturesAccepts(c, rrset, signer, rrset[0].rtype, rrsigs, keys, now, None);
    ParsedRrsigsAreWellFormed(rrsigRrset, rrset[0].name, rrset[0].class_);
  }

  lemma {:induction false} KeysSignEverything(
    c: Crypto, rrset: seq<ResourceRecord>, rrsig: RrsigRecord, keys: seq<DnskeyRecord>, now: nat,
    deferred: Option<DnssecError>, key: DnskeyRecord)
    requires key in keys && key.algorithm == rrsig.algorithm && KeyTag(key.rdata) == rrsig.keyTag
    requires VerifyRrsig(c, rrset, rrsig, key, now) == Ok(true)
    ensures TryKeys(c, rrset, rrsig, keys, now, deferred) == Accepted
    decreases |keys|
  {
    hide VerifyRrsig, TagSum;
    if keys[0] != key {
      assert key in keys[1..];
      var d := if deferred.None? && VerifyRrsig(c, rrset, rrsig, keys[0], now).Err?
               then Some(VerifyRrsig(c, rrset, rrsig, keys[0], now).error) else deferred;
      KeysSignEverything(c, rrset, rrsig, keys[1..], now, deferred, key);
      KeysSignEverything(c, rrset, rrsig, keys[1..], now, d, key);
    }
  }

  /** One good signature is enough, whatever errors the others give and wherever it stands. */
  lemma {:induction false} OneSignatureSuffices(
    c: Crypto, rrset: seq<ResourceRecord>, signer: DnsName, rtype: RecordType, rrsigs: seq<RrsigRecord>,
    keys: seq<DnskeyRecord>, now: nat, deferred: Option<DnssecError>, rrsig: RrsigRecord, key: DnskeyRecord)
    requires rrsig in rrsigs && key in keys && rrsig.typeCovered == rtype && rrsig.signerName == signer
    requires key.algorithm == rrsig.algorithm && KeyTag(key.rdata) == rrsig.keyTag
    requires VerifyRrsig(c, rrset, rrsig, key, now) == Ok(true)
    ensures TrySignatures(c, rrset, signer, rtype, rrsigs, keys, now, deferred) == Accepted
    decreases |rrsigs|
  {
    hide VerifyRrsig, TagSum, TryKeys;
    if rrsigs[0] == rrsig {
      KeysSignEverything(c, rrset, rrsig, keys, now, deferred, key);
    } else {
      assert rrsig in rrsigs[1..];
      OneSignatureSuffices(c, rrset, signer, rtype, rrsigs[1..], keys, now, deferred, rrsig, key);
      var attempt := TryKeys(c, rrset, rrsigs[0], keys, now, deferred);
      if attempt.Rejected? {
        OneSignatureSuffices(c, rrset, signer, rtype, rrsigs[1..], keys, now, attempt.deferred, rrsig, key);
      }
    }
  }

  /**
   * The status is Secure exactly when some signature of the signer over the RRset's type is
   * verified by one of the keys, whatever errors the others cause.
   */
  lemma SecureIffVerified(
    c: Crypto, signer: DnsName, dnskeyRrset: seq<ResourceRecord>, rrset: seq<ResourceRecord>,
    rrsigRrset: seq<ResourceRecord>, now: nat)
    requires rrset != [] && ParseDnskeys(dnskeyRrset).Ok?
    requires ParseRrsigs(rrsigRrset, rrset[0].name, rrset[0].class_).Ok?
    ensures ValidateRrsetSignature(c, signer, dnskeyRrset, rrset, rrsigRrset, now) == Ok(Secure) <==>
      exists rrsig, key ::
        && rrsig in ParseRrsigs(rrsigRrset, rrset[0].name, rrset[0].class_).value
        && key in ParseDnskeys(dnskeyRrset).value
        && Verifies(c, rrset, signer, rrset[0].rtype, rrsig, key, now)
  {
    var keys := ParseDnskeys(dnskeyRrset).value;
    var rrsigs := ParseRrsigs(rrsigRrset, rrset[0].name, rrset[0].class_).value;
    var rtype := rrset[0].rtype;
    forall rrsig, key | rrsig in rrsigs && key in keys && Verifies(c, rrset, signer, rtype, rrsig, key, now)
      ensures TrySignatures(c, rrset, signer, rtype, rrsigs, keys, now, None) == Accepted
    {
      OneSignatureSuffices(c, rrset, signer, rtype, rrsigs, keys, now, None, rrsig, key);
    }
    hide TrySignatures, Verifies, ParseDnskeys, ParseRrsigs, Signed;
    if TrySignatures(c, rrset, signer, rtype, rrsigs, keys, now, None) == Accepted {
      var rrsig, key := TrySignaturesAccepts(c, rrset, signer, rtype, rrsigs, keys, now, None);
    }
  }

  /**
   * A key verifies an RRset with an RRSIG exactly if it is a zone key (bit 7 of its flags) of the
   * RRSIG's algorithm and tag, the algorithm takes the key and the signature, and the signature
   * holds over the signed data.
   */
  lemma VerifiedIff(c: Crypto, rrset: seq<ResourceRecord>, rrsig: RrsigRecord, key: DnskeyRecord, now: nat)
    ensures VerifyRrsig(c, rrset, rrsig, key, now) == Ok(true) <==>
      && key.flags / 256 % 2 == 1 && key.algorithm == rrsig.algorithm && KeyTag(key.rdata) == rrsig.keyTag
      && c.precheck(key.algorithm, key.publicKey, rrsig.signature) == None
      && SignedBytes(rrset, rrsig, now).Ok?
      && c.holds(key.algorithm, key.publicKey, SignedBytes(rrset, rrsig, now).value, rrsig.signature)
  {
    hide SignedBytes, KeyTag;
  }

  // ---------------------------------------------------------------- what is reported otherwise

  /** The RRSIG is of the signer and over the type, and the key is of its algorithm and tag. */
  predicate Tried(signer: DnsName, rtype: RecordType, rrsig: RrsigRecord, key: DnskeyRecord) {
    && rrsig.typeCovered == rtype && rrsig.signerName == signer
    && key.algorithm == rrsig.algorithm && KeyTag(key.rdata) == rrsig.keyTag
  }

  /** Trying this RRSIG with this key is an error. */
  predicate Fails(c: Crypto, rrset: seq<ResourceRecord>, signer: DnsName, rtype: RecordType, rrsig: RrsigRecord, key: DnskeyRecord, now: nat) {
    Tried(signer, rtype, rrsig, key) && VerifyRrsig(c, rrset, rrsig, key, now).Err?
  }

  lemma {:induction false} FirstFailureOfKeys(
    c: Crypto, rrset: seq<ResourceRecord>, signer: DnsName, rtype: RecordType, rrsig: RrsigRecord,
    keys: seq<DnskeyRecord>, now: nat, deferred: Option<DnssecError>) returns (j: nat)
    requires rrsig.typeCovered == rtype && rrsig.signerName == signer
    requires TryKeys(c, rrset, rrsig, keys, now, deferred).Rejected?
    ensures j <= |keys| && forall k | 0 <= k < j :: !Fails(c, rrset, signer, rtype, rrsig, keys[k], now)
    ensures TryKeys(c, rrset, rrsig, keys, now, deferred).deferred
      == if deferred.Some? then deferred
         else if j < |keys| && Fails(c, rrset, signer, rtype, rrsig, keys[j], now)
         then Some(VerifyRrsig(c, rrset, rrsig, keys[j], now).error) else None
    ensures deferred.None? ==> j == |keys| || Fails(c, rrset, signer, rtype, rrsig, keys[j], now)
    decreases |keys|
  {
    hide VerifyRrsig, KeyTag;
    j := 0;
    if keys != [] {
      if Fails(c, rrset, signer, rtype, rrsig, keys[0], now) {
        var d := if deferred.Some? then deferred else Some(VerifyRrsig(c, rrset, rrsig, keys[0], now).error);
        var _ := FirstFailureOfKeys(c, rrset, signer, rtype, rrsig, keys[1..], now, d);
      } else {
        var i := FirstFailureOfKeys(c, rrset, signer, rtype, rrsig, keys[1..], now, deferred);
        j := i + 1;
        assert forall k | 0 < k < j :: keys[k] == keys[1..][k - 1];
      }
    }
  }

  /** No RRSIG before the i-th fails with any key, and the i-th none before the j-th. */
  ghost predicate NothingFailsBefore(
    c: Crypto, rrset: seq<ResourceRecord>, signer: DnsName, rtype: RecordType, rrsigs: seq<RrsigRecord>,
    keys: seq<DnskeyRecord>, now: nat, i: nat, j: nat)
    requires i <= |rrsigs| && j <= |keys|
  {
    && (forall a, b | 0 <= a < i && 0 <= b < |keys| :: !Fails(c, rrset, signer, rtype, rrsigs[a], keys[b], now))
    && (i < |rrsigs| ==> forall b | 0 <= b < j :: !Fails(c, rrset, signer, rtype, rrsigs[i], keys[b], now))
  }

  lemma {:induction false} FirstFailure(
    c: Crypto, rrset: seq<ResourceRecord>, signer: DnsName, rtype: RecordType, rrsigs: seq<RrsigRecord>,
    keys: seq<DnskeyRecord>, now: nat, deferred: Option<DnssecError>) returns (i: nat, j: nat)
    requires TrySignatures(c, rrset, signer, rtype, rrsigs, keys, now, deferred).Rejected?
    ensures i <= |rrsigs| && j <= |keys| && NothingFailsBefore(c, rrset, signer, rtype, rrsigs, keys, now, i, j)
    ensures var d := TrySignatures(c, rrset, signer, rtype, rrsigs, keys, now, deferred).deferred;
      if deferred.Some? then d == deferred
      else if d.None? then i == |rrsigs|
      else i < |rrsigs| && j < |keys| && Fails(c, rrset, signer, rtype, rrsigs[i], keys[j], now)
           && d.value == VerifyRrsig(c, rrset, rrsigs[i], keys[j], now).error
    decreases |rrsigs|
  {
    hide VerifyRrsig, KeyTag, TryKeys, Fails;
    i, j := 0, 0;
    if rrsigs != [] {
      if rrsigs[0].typeCovered != rtype || rrsigs[0].signerName != signer {
        NotTried(c, rrset, signer, rtype, rrsigs[0], keys, now);
        i, j := FirstFailure(c, rrset, signer, rtype, rrsigs[1..], keys, now, deferred);
        OneMore(c, rrset, signer, rtype, rrsigs, keys, now, i, j);
        i := i + 1;
      } else {
        var d := TryKeys(c, rrset, rrsigs[0], keys, now, deferred).deferred;
        j := FirstFailureOfKeys(c, rrset, signer, rtype, rrsigs[0], keys, now, deferred);
        if deferred.None? && d.None? {
          i, j := FirstFailure(c, rrset, signer, rtype, rrsigs[1..], keys, now, d);
          OneMore(c, rrset, signer, rtype, rrsigs, keys, now, i, j);
          i := i + 1;
        } else {
          var _, _ := FirstFailure(c, rrset, signer, rtype, rrsigs[1..], keys, now, d);
        }
      }
    }
  }

  lemma NotTried(
    c: Crypto, rrset: seq<ResourceRecord>, signer: DnsName, rtype: RecordType, rrsig: RrsigRecord, keys: seq<DnskeyRecord>, now: nat)
    requires rrsig.typeCovered != rtype || rrsig.signerName != signer
    ensures forall b | 0 <= b < |keys| :: !Fails(c, rrset, signer, rtype, rrsig, keys[b], now)
  {
    hide VerifyRrsig, KeyTag;
  }

  lemma OneMore(
    c: Crypto, rrset: seq<ResourceRecord>, signer: DnsName, rtype: RecordType, rrsigs: seq<RrsigRecord>,
    keys: seq<DnskeyRecord>, now: nat, i: nat, j: nat)
    requires rrsigs != [] && i < |rrsigs| && j <= |keys|
    requires forall b | 0 <= b < |keys| :: !Fails(c, rrset, signer, rtype, rrsigs[0], keys[b], now)
    requires NothingFailsBefore(c, rrset, signer, rtype, rrsigs[1..], keys, now, i, j)
    ensures NothingFailsBefore(c, rrset, signer, rtype, rrsigs, keys, now, i + 1, j)
  {
    hide Fails;
    assert forall a | 0 < a < |rrsigs| :: rrsigs[a] == rrsigs[1..][a - 1];
  }

  /**
   * An RRset that no signature verifies: the error reported is that of the first RRSIG and key, in
   * this order, that fail; if none fails the status is Bogus.
   */
  lemma RefusedFor(
    c: Crypto, signer: DnsName, dnskeyRrset: seq<ResourceRecord>, rrset: seq<ResourceRecord>,
    rrsigRrset: seq<ResourceRecord>, now: nat) returns (i: nat, j: nat)
    requires rrset != [] && ParseDnskeys(dnskeyRrset).Ok?
    requires ParseRrsigs(rrsigRrset, rrset[0].name, rrset[0].class_).Ok?
    requires ValidateRrsetSignature(c, signer, dnskeyRrset, rrset, rrsigRrset, now) != Ok(Secure)
    ensures var keys, rrsigs := ParseDnskeys(dnskeyRrset).value, ParseRrsigs(rrsigRrset, rrset[0].name, rrset[0].class_).value;
      var r := ValidateRrsetSignature(c, signer, dnskeyRrset, rrset, rrsigRrset, now);
      && i <= |rrsigs| && j <= |keys| && NothingFailsBefore(c, rrset, signer, rrset[0].rtype, rrsigs, keys, now, i, j)
      && if i == |rrsigs| then r == Ok(Bogus)
         else j < |keys| && Fails(c, rrset, signer, rrset[0].rtype, rrsigs[i], keys[j], now)
              && r == Err(VerifyRrsig(c, rrset, rrsigs[i], keys[j], now).error)
  {
    hide TrySignatures, ParseDnskeys, ParseRrsigs, NothingFailsBefore, Fails, VerifyRrsig;
    i, j := FirstFailure(c, rrset, signer, rrset[0].rtype,
                         ParseRrsigs(rrsigRrset, rrset[0].name, rrset[0].class_).value, ParseDnskeys(dnskeyRrset).value, now, None);
  }

  // ---------------------------------------------------------------- the search as it is written

  /** Every signature of the signer against every key of its algorithm and tag, keeping the first error. */
  method SearchSignatures(
    c: Crypto, signer: DnsName, dnskeyRrset: seq<ResourceRecord>, rrset: seq<ResourceRecord>,
    rrsigRrset: seq<ResourceRecord>, now: nat) returns (r: Result<Status, DnssecError>)
    ensures r == ValidateRrsetSignature(c, signer, dnskeyRrset, rrset, rrsigRrset, now)
  {
    hide VerifyRrsig, KeyTag, ParseDnskeys, ParseRrsigs;
    if rrset == [] {
      return Err(InvalidRrset);
    }
    var keys :- ParseDnskeys(dnskeyRrset);
    var rrsigs :- ParseRrsigs(rrsigRrset, rrset[0].name, rrset[0].class_);
    var rtype := rrset[0].rtype;
    var deferred: Option<DnssecError> := None;
    for i := 0 to |rrsigs|
      invariant TrySignatures(c, rrset, signer, rtype, rrsigs, keys, now, None)
        == TrySignatures(c, rrset, signer, rtype, rrsigs[i..], keys, now, deferred)
    {
      var rrsig := rrsigs[i];
      assert rrsigs[i..][0] == rrsig && rrsigs[i..][1..] == rrsigs[i + 1..];
      if rrsig.typeCovered != rtype || rrsig.signerName != signer {
        continue;
      }
      ghost var before := deferred;
      for j := 0 to |keys|
        invariant TryKeys(c, rrset, rrsig, keys, now, before) == TryKeys(c, rrset, rrsig, keys[j..], now, deferred)
      {
        assert keys[j..][0] == keys[j] && keys[j..][1..] == keys[j + 1..];
        if keys[j].algorithm != rrsig.algorithm || KeyTag(keys[j].rdata) != rrsig.keyTag {
          continue;
        }
        match VerifyRrsig(c, rrset, rrsig, keys[j], now) {
          case Ok(true) => return Ok(Secure);
          case Ok(false) =>
          case Err(e) =>
            if deferred.None? {
              deferred := Some(e);
            }
        }
      }
      assert TryKeys(c, rrset, rrsig, keys, now, before) == Rejected(deferred);
    }
    return if deferred.Some? then Err(deferred.value) else Ok(Bogus);
  }
}
