/**
 * The DNSSEC view of RDATA (rust/crates/hns-dnssec/src/lib.rs, with the SVCB parser of
 * rust/crates/hns-core/src/dns.rs): records parsed from RDATA, type bitmaps, and the canonical
 * RDATA that signatures cover (section 6.2 of RFC 4034).
 */
module Rdata {
  import opened Prelude
  import opened WireName
  import opened WireMessage

  datatype DnssecError =
    | InvalidDnskey | InvalidDs | UnsupportedDigest | NameEncoding | InvalidRrsig | InvalidNsec | InvalidNsec3
    | InvalidRrset | UnsupportedCanonicalRdata | SignatureOutsideValidity | UnsupportedAlgorithm | InvalidSignature

  function Expect<T>(r: Result<T, ParseError>, error: DnssecError): Result<T, DnssecError> {
    match r case Ok(v) => Ok(v) case Err(_) => Err(error)
  }

  // ---------------------------------------------------------------- type bitmaps

  /** Windows in increasing order, each with 1 to 32 octets, filling the string exactly. */
  predicate ValidBitmaps(maps: seq<byte>, previous: Option<byte>)
    decreases |maps|
  {
    maps == [] || (
      && |maps| >= 2
      && 1 <= maps[1] <= 32 && maps[1] + 2 <= |maps|
      && (previous.Some? ==> maps[0] > previous.value)
      && ValidBitmaps(maps[maps[1] + 2..], Some(maps[0])))
  }

  method ValidateTypeBitMaps(maps: seq<byte>) returns (ok: bool)
    ensures ok == ValidBitmaps(maps, None)
  {
    var cursor := 0;
    var previous: Option<byte> := None;
    while cursor < |maps|
      invariant cursor <= |maps|
      invariant ValidBitmaps(maps, None) == ValidBitmaps(maps[cursor..], previous)
    {
      if cursor + 2 > |maps| {
        return false;
      }
      var window, length := maps[cursor], maps[cursor + 1];
      cursor := cursor + 2;
      if length == 0 || length > 32 || cursor + length > |maps| {
        return false;
      }
      if previous.Some? && window <= previous.value {
        return false;
      }
      assert maps[cursor - 2..][length + 2..] == maps[cursor + length..];
      previous := Some(window);
      cursor := cursor + length;
    }
    return true;
  }

  function Bit(octet: byte, position: nat): bool
    requires position < 8
  {
    octet / (match position case 0 => 128 case 1 => 64 case 2 => 32 case 3 => 16 case 4 => 8 case 5 => 4 case 6 => 2
             case _ => 1) % 2 == 1
  }

  /** The bit of a type code, read in the first window with the code's high octet. */
  predicate HasType(maps: seq<byte>, code: u16)
    decreases |maps|
  {
    && |maps| >= 2 && maps[1] + 2 <= |maps|
    && (if maps[0] == code / 0x100 then
          code % 0x100 / 8 < maps[1] && Bit(maps[2 + code % 0x100 / 8], code % 8)
        else HasType(maps[maps[1] + 2..], code))
  }

  method TypeBitMapsContain(maps: seq<byte>, code: u16) returns (r: Option<bool>)
    ensures r == if ValidBitmaps(maps, None) then Some(HasType(maps, code)) else None
  {
    hide Bit;
    var valid := ValidateTypeBitMaps(maps);
    if !valid {
      return None;
    }
    var cursor := 0;
    ghost var previous: Option<byte> := None;
    while cursor < |maps|
      invariant cursor <= |maps|
      invariant ValidBitmaps(maps[cursor..], previous)
      invariant HasType(maps, code) == HasType(maps[cursor..], code)
    {
      var window, length := maps[cursor], maps[cursor + 1];
      assert maps[cursor..][length + 2..] == maps[cursor + 2 + length..];
      cursor := cursor + 2;
      if window == code / 0x100 {
        var index := code % 0x100 / 8;
        if index >= length {
          return Some(false);
        }
        return Some(Bit(maps[cursor + index], code % 8));
      }
      previous := Some(window);
      cursor := cursor + length;
    }
    return Some(false);
  }

  // ---------------------------------------------------------------- records

  datatype DnskeyRecord = DnskeyRecord(flags: u16, algorithm: byte, publicKey: seq<byte>, rdata: seq<byte>)

  function ParseDnskey(rdata: seq<byte>): Result<DnskeyRecord, DnssecError> {
    if |rdata| < 4 || rdata[2] != 3 then Err(InvalidDnskey)
    else Ok(DnskeyRecord(ReadU16(rdata, 0), rdata[3], rdata[4..], rdata))
  }

  datatype RrsigRecord = RrsigRecord(
    typeCovered: RecordType, algorithm: byte, labels: byte, originalTtl: u32, expiration: u32, inception: u32,
    keyTag: u16, signerName: DnsName, signature: seq<byte>, signedRdata: seq<byte>)

  function ParseRrsig(rdata: seq<byte>): Result<RrsigRecord, DnssecError> {
    if |rdata| < 19 then Err(InvalidRrsig)
    else
      var signer :- Expect(ParseName(rdata, 18), InvalidRrsig);
      if signer.end >= |rdata| then Err(InvalidRrsig)
      else
        ParseNameIsSound(rdata, 18);
        var wire :- Expect(EncodeName(signer.name), NameEncoding);
        Ok(RrsigRecord(RecordType.FromCode(ReadU16(rdata, 0)), rdata[2], rdata[3], ReadU32(rdata, 4), ReadU32(rdata, 8),
                       ReadU32(rdata, 12), ReadU16(rdata, 16), signer.name, rdata[signer.end..], rdata[..18] + wire))
  }

  datatype NsecRecord = NsecRecord(next: DnsName, maps: seq<byte>)

  function ParseNsec(rdata: seq<byte>): Result<NsecRecord, DnssecError> {
    var next :- Expect(ParseName(rdata, 0), InvalidNsec);
    if next.end >= |rdata| then Err(InvalidNsec)
    else if !ValidBitmaps(rdata[next.end..], None) then Err(InvalidNsec)
    else Ok(NsecRecord(next.name, rdata[next.end..]))
  }

  datatype Nsec3Record = Nsec3Record(
    algorithm: byte, flags: byte, iterations: u16, salt: seq<byte>, nextHash: seq<byte>, maps: seq<byte>)

  function ParseNsec3(rdata: seq<byte>): Result<Nsec3Record, DnssecError> {
    if |rdata| < 6 then Err(InvalidNsec3)
    else
      var saltEnd: nat := 5 + rdata[4] as int;
      if saltEnd >= |rdata| then Err(InvalidNsec3)
      else
        var hashStart, hashEnd: nat := saltEnd + 1, saltEnd + 1 + rdata[saltEnd];
        if rdata[saltEnd] == 0 || hashEnd > |rdata| || !ValidBitmaps(rdata[hashEnd..], None) then Err(InvalidNsec3)
        else Ok(Nsec3Record(rdata[0], rdata[1], ReadU16(rdata, 2), rdata[5..saltEnd], rdata[hashStart..hashEnd], rdata[hashEnd..]))
  }

  // ---------------------------------------------------------------- SVCB

  datatype SvcParam = SvcParam(key: u16, value: seq<byte>)

  datatype SvcbRecord = SvcbRecord(priority: u16, target: DnsName, params: seq<SvcParam>)

  /** Length-prefixed, nonempty identifiers, at least one. */
  predicate ValidAlpnList(value: seq<byte>)
    decreases |value|
  {
    value == [] || (value[0] > 0 && value[0] + 1 <= |value| && ValidAlpnList(value[value[0] + 1..]))
  }

  /** Increasing two-byte keys, none of them 0. */
  predicate ValidMandatory(value: seq<byte>, previous: Option<u16>)
    decreases |value|
  {
    value == [] || (
      && |value| >= 2
      && ReadU16(value, 0) != 0
      && (previous.Some? ==> ReadU16(value, 0) > previous.value)
      && ValidMandatory(value[2..], Some(ReadU16(value, 0))))
  }

  predicate ValidParam(key: u16, value: seq<byte>) {
    match key
    case 0 => value != [] && ValidMandatory(value, None)
    case 1 => value != [] && ValidAlpnList(value)
    case 2 => value == []
    case 3 => |value| == 2
    case 4 => value != [] && |value| % 4 == 0
    case 6 => value != [] && |value| % 16 == 0
    case _ => true
  }

  function ParseParams(tail: seq<byte>, previous: Option<u16>): Result<seq<SvcParam>, ParseError>
    decreases |tail|
  {
    if tail == [] then Ok([])
    else if |tail| < 4 then Err(InvalidSvcb)
    else
      var key, length := ReadU16(tail, 0), ReadU16(tail, 2);
      if (previous.Some? && key <= previous.value) || length + 4 > |tail| || !ValidParam(key, tail[4..length + 4])
      then Err(InvalidSvcb)
      else
        var rest :- ParseParams(tail[length + 4..], Some(key));
        Ok([SvcParam(key, tail[4..length + 4])] + rest)
  }

  /** The name parser that knows no pointers and checks the length at the end. */
  function WalkUncompressed(message: seq<byte>, cursor: nat, labels: DnsName): (r: Result<Parsed, ParseError>)
    ensures r.Ok? ==> cursor < r.value.end <= |message|
    decreases |message| - cursor
  {
    if cursor >= |message| || message[cursor] >= 0x40 then Err(InvalidSvcb)
    else if message[cursor] == 0 then
      if LabelsSize(labels) + 1 > MAX_NAME_LEN + 2 then Err(LengthLimit) else Ok(Parsed(labels, cursor + 1))
    else
      var end := cursor + 1 + message[cursor];
      if end > |message| || !IsValidLabel(message[cursor + 1..end]) then Err(InvalidSvcb)
      else WalkUncompressed(message, end, labels + [Lower(message[cursor + 1..end])])
  }

  function ParseSvcb(rdata: seq<byte>): Result<SvcbRecord, ParseError> {
    if |rdata| < 3 then Err(InvalidSvcb)
    else
      var target :- WalkUncompressed(rdata, 2, []);
      var params :- ParseParams(rdata[target.end..], None);
      Ok(SvcbRecord(ReadU16(rdata, 0), target.name, params))
  }

  function EncodeParams(params: seq<SvcParam>): seq<byte> {
    if params == [] then []
    else U16Bytes(params[0].key) + U16Bytes(|params[0].value| % 0x1_0000) + params[0].value + EncodeParams(params[1..])
  }

  // ---------------------------------------------------------------- canonical RDATA

  function CanonicalName(rdata: seq<byte>): Result<seq<byte>, DnssecError> {
    var p :- Expect(ParseName(rdata, 0), InvalidRrset);
    if p.end != |rdata| then Err(InvalidRrset) else Expect(EncodeName(p.name), NameEncoding)
  }

  function CanonicalSoa(rdata: seq<byte>): Result<seq<byte>, DnssecError> {
    var mname :- Expect(ParseName(rdata, 0), InvalidRrset);
    var rname :- Expect(ParseName(rdata, mname.end), InvalidRrset);
    if rname.end + 20 != |rdata| then Err(InvalidRrset)
    else
      var first :- Expect(EncodeName(mname.name), NameEncoding);
      var second :- Expect(EncodeName(rname.name), NameEncoding);
      Ok(first + (second + rdata[rname.end..]))
  }

  function CanonicalSrv(rdata: seq<byte>): Result<seq<byte>, DnssecError> {
    if |rdata| < 6 then Err(InvalidRrset)
    else
      var target :- Expect(ParseName(rdata, 6), InvalidRrset);
      if target.end != |rdata| then Err(InvalidRrset)
      else
        var wire :- Expect(EncodeName(target.name), NameEncoding);
        Ok(rdata[..6] + wire)
  }

  function CanonicalNsec(rdata: seq<byte>): Result<seq<byte>, DnssecError> {
    var nsec :- ParseNsec(rdata);
    var wire :- Expect(EncodeName(nsec.next), NameEncoding);
    Ok(wire + nsec.maps)
  }

  function CanonicalSvcb(rdata: seq<byte>): Result<seq<byte>, DnssecError> {
    var svcb :- Expect(ParseSvcb(rdata), InvalidRrset);
    var wire :- Expect(EncodeName(svcb.target), NameEncoding);
    Ok(U16Bytes(svcb.priority) + (wire + EncodeParams(svcb.params)))
  }

  function CanonicalRdata(rtype: RecordType, rdata: seq<byte>): Result<seq<byte>, DnssecError> {
    match rtype
    case A | Aaaa | Ds | Dnskey | Tlsa | Txt | Unknown(_) => Ok(rdata)
    case Ns | Cname => CanonicalName(rdata)
    case Soa => CanonicalSoa(rdata)
    case Srv => CanonicalSrv(rdata)
    case Nsec => CanonicalNsec(rdata)
    case Nsec3 =>
      var _ :- ParseNsec3(rdata);
      Ok(rdata)
    case Svcb | Https => CanonicalSvcb(rdata)
    case Rrsig => Err(UnsupportedCanonicalRdata)
  }

  // ---------------------------------------------------------------- canonical RDATA is a normal form

  lemma AtTail(message: seq<byte>, i: nat, s: seq<byte>)
    requires At(message, i, s) && i + |s| == |message|
    ensures message[i..] == s
  {
  }

  lemma NameAt(message: seq<byte>, offset: nat, name: DnsName)
    requires WellFormed(name) && EncodeName(name).Ok? && At(message, offset, EncodeName(name).value)
    ensures ParseName(message, offset) == Ok(Parsed(name, offset + |EncodeName(name).value|))
  {
    ParseInvertsEncode(message, offset, name);
  }

  lemma {:induction false} EncodeParamsInverts(tail: seq<byte>, previous: Option<u16>)
    requires ParseParams(tail, previous).Ok?
    ensures EncodeParams(ParseParams(tail, previous).value) == tail
    decreases |tail|
  {
    hide ValidParam, BigEndian, ToBigEndian, EncodeParams;
    if tail == [] {
      EncodeNoParams();
    } else {
      var length: nat := ReadU16(tail, 2) as int;
      var rest := tail[length + 4..];
      EncodeParamsInverts(rest, Some(ReadU16(tail, 0)));
      U16Inverts(tail, 0);
      U16Inverts(tail, 2);
      EncodeParamsCons(SvcParam(ReadU16(tail, 0), tail[4..length + 4]), ParseParams(rest, Some(ReadU16(tail, 0))).value);
      SplitParam(tail, length + 4);
    }
  }

  lemma EncodeNoParams()
    ensures EncodeParams([]) == []
  {
  }

  lemma EncodeParamsCons(param: SvcParam, rest: seq<SvcParam>)
    ensures EncodeParams([param] + rest)
         == U16Bytes(param.key) + U16Bytes(|param.value| % 0x1_0000) + param.value + EncodeParams(rest)
  {
    assert ([param] + rest)[1..] == rest;
  }

  lemma SplitParam(tail: seq<byte>, end: nat)
    requires 4 <= end <= |tail|
    ensures tail == tail[0..2] + tail[2..4] + tail[4..end] + tail[end..]
  {
  }

  lemma U16Inverts(message: seq<byte>, i: nat)
    requires i + 2 <= |message|
    ensures U16Bytes(ReadU16(message, i)) == message[i..i + 2]
  {
    BigEndianInverse(message[i..i + 2]);
  }

  lemma {:induction false} WalkUncompressedIsSound(message: seq<byte>, cursor: nat, labels: DnsName)
    requires WalkUncompressed(message, cursor, labels).Ok?
    requires forall i | 0 <= i < |labels| :: IsStoredLabel(labels[i])
    ensures WellFormed(WalkUncompressed(message, cursor, labels).value.name)
    decreases |message| - cursor
  {
    hide LabelsSize;
    if message[cursor] != 0 {
      var end := cursor + 1 + message[cursor];
      LowerIsIdempotent(message[cursor + 1..end]);
      WalkUncompressedIsSound(message, end, labels + [Lower(message[cursor + 1..end])]);
    }
  }

  lemma {:induction false} WalkUncompressedOverWire(message: seq<byte>, cursor: nat, labels: DnsName, rest: DnsName)
    requires WellFormed(labels + rest) && Encodable(rest) && At(message, cursor, Wire(rest))
    ensures WalkUncompressed(message, cursor, labels) == Ok(Parsed(labels + rest, cursor + |Wire(rest)|))
    decreases |rest|
  {
    hide WellFormed, LabelsSize, At, IsStoredLabel, WalkUncompressed;
    if rest == [] {
      assert labels + rest == labels;
      UncompressedRoot(message, cursor, labels);
    } else {
      AtConcat(message, cursor, [|rest[0]|] + rest[0], Wire(rest[1..]));
      FirstLabelFits(labels, rest);
      UncompressedLabel(message, cursor, labels, rest[0]);
      WalkUncompressedOverWire(message, cursor + 1 + |rest[0]|, labels + [rest[0]], rest[1..]);
    }
  }

  lemma UncompressedRoot(message: seq<byte>, cursor: nat, labels: DnsName)
    requires At(message, cursor, [0]) && WellFormed(labels)
    ensures WalkUncompressed(message, cursor, labels) == Ok(Parsed(labels, cursor + 1))
  {
    assert message[cursor] == message[cursor..cursor + 1][0];
  }

  lemma UncompressedLabel(message: seq<byte>, cursor: nat, labels: DnsName, octets: Label)
    requires IsStoredLabel(octets) && At(message, cursor, [|octets|] + octets)
    ensures WalkUncompressed(message, cursor, labels) == WalkUncompressed(message, cursor + 1 + |octets|, labels + [octets])
  {
    hide LabelsSize, IsValidLabel;
    AtConcat(message, cursor, [|octets|], octets);
    assert message[cursor] == message[cursor..cursor + 1][0];
  }

  lemma SvcbReads(out: seq<byte>, priority: u16, target: DnsName, tail: seq<byte>)
    requires WellFormed(target) && Encodable(target) && ParseParams(tail, None).Ok?
    requires out == U16Bytes(priority) + (Wire(target) + tail)
    ensures ParseSvcb(out) == Ok(SvcbRecord(priority, target, ParseParams(tail, None).value))
  {
    var head, wire := U16Bytes(priority), Wire(target);
    hide *;
    Layout(out, head, wire, tail);
    SvcbReadsAt(out, priority, target, wire, tail);
  }

  lemma Layout(out: seq<byte>, a: seq<byte>, b: seq<byte>, c: seq<byte>)
    requires out == a + (b + c)
    ensures At(out, 0, a) && At(out, |a|, b) && |out| == |a| + |b| + |c| && out[|a| + |b|..] == c
  {
    hide At;
    AtWhole(out);
    AtConcat(out, 0, a, b + c);
    AtConcat(out, |a|, b, c);
    AtTail(out, |a| + |b|, c);
  }

  lemma SvcbReadsAt(out: seq<byte>, priority: u16, target: DnsName, wire: seq<byte>, tail: seq<byte>)
    requires WellFormed(target) && Encodable(target) && ParseParams(tail, None).Ok? && wire == Wire(target)
    requires At(out, 0, U16Bytes(priority)) && At(out, 2, wire)
    requires |out| == 2 + |wire| + |tail| && out[2 + |wire|..] == tail
    ensures ParseSvcb(out) == Ok(SvcbRecord(priority, target, ParseParams(tail, None).value))
  {
    hide BigEndian, ToBigEndian, ParseParams, WalkUncompressed, WellFormed, Wire, At, U16Bytes, ReadU16;
    assert [] + target == target;
    WalkUncompressedOverWire(out, 2, [], target);
    ReadU16Inverts(out, 0, priority);
  }

  lemma SvcbIsStable(rdata: seq<byte>)
    requires CanonicalSvcb(rdata).Ok?
    ensures CanonicalSvcb(CanonicalSvcb(rdata).value) == CanonicalSvcb(rdata)
  {
    hide BigEndian, ToBigEndian, ParseParams, EncodeParams, WalkUncompressed, WellFormed, Wire, U16Bytes, ReadU16;
    var target := WalkUncompressed(rdata, 2, []).value;
    WalkUncompressedIsSound(rdata, 2, []);
    EncodeParamsInverts(rdata[target.end..], None);
    WellFormedIsEncodable(target.name);
    SvcbReads(CanonicalSvcb(rdata).value, ReadU16(rdata, 0), target.name, rdata[target.end..]);
  }

  lemma NsecIsStable(rdata: seq<byte>)
    requires CanonicalNsec(rdata).Ok?
    ensures CanonicalNsec(CanonicalNsec(rdata).value) == CanonicalNsec(rdata)
    ensures ParseNsec(rdata).Ok? && ParseNsec(CanonicalNsec(rdata).value) == ParseNsec(rdata)
  {
    ParseNameIsSound(rdata, 0);
    hide ParseName, WellFormed, ValidBitmaps, Wire;
    var nsec := ParseNsec(rdata).value;
    var out := CanonicalNsec(rdata).value;
    var wire := EncodeName(nsec.next).value;
    assert out == wire + nsec.maps && out[..|wire|] == wire && out[|wire|..] == nsec.maps;
    NameAt(out, 0, nsec.next);
  }

  lemma SoaIsStable(rdata: seq<byte>)
    requires CanonicalSoa(rdata).Ok?
    ensures CanonicalSoa(CanonicalSoa(rdata).value) == CanonicalSoa(rdata)
  {
    ParseNameIsSound(rdata, 0);
    var mname := ParseName(rdata, 0).value;
    ParseNameIsSound(rdata, mname.end);
    hide ParseName, WellFormed, Encodable, Wire, At;
    var rname := ParseName(rdata, mname.end).value;
    SoaReads(CanonicalSoa(rdata).value, mname.name, rname.name, rdata[rname.end..]);
  }

  lemma SoaReads(out: seq<byte>, mname: DnsName, rname: DnsName, tail: seq<byte>)
    requires WellFormed(mname) && WellFormed(rname) && EncodeName(mname).Ok? && EncodeName(rname).Ok? && |tail| == 20
    requires out == EncodeName(mname).value + (EncodeName(rname).value + tail)
    ensures CanonicalSoa(out) == Ok(out)
  {
    var first, second := EncodeName(mname).value, EncodeName(rname).value;
    hide ParseName, WellFormed, EncodeName, At;
    Layout(out, first, second, tail);
    NameAt(out, 0, mname);
    NameAt(out, |first|, rname);
  }

  /** Canonical RDATA is its own canonical form, for every type. */
  lemma CanonicalRdataIsStable(rtype: RecordType, rdata: seq<byte>)
    requires CanonicalRdata(rtype, rdata).Ok?
    ensures CanonicalRdata(rtype, CanonicalRdata(rtype, rdata).value) == CanonicalRdata(rtype, rdata)
  {
    hide CanonicalSoa, CanonicalSvcb, CanonicalNsec, ParseNsec3, WellFormed, Wire;
    var out := CanonicalRdata(rtype, rdata).value;
    match rtype {
      case Ns | Cname =>
        ParseNameIsSound(rdata, 0);
        assert At(out, 0, out);
        NameAt(out, 0, ParseName(rdata, 0).value.name);
      case Srv =>
        ParseNameIsSound(rdata, 6);
        var name := ParseName(rdata, 6).value.name;
        assert out[..6] == rdata[..6] && out[6..] == EncodeName(name).value;
        NameAt(out, 6, name);
      case Soa => SoaIsStable(rdata);
      case Nsec => NsecIsStable(rdata);
      case Svcb | Https => SvcbIsStable(rdata);
      case _ =>
    }
  }
}
