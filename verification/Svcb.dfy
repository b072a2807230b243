/** The SVCB parser as it is written, and its round trip (rust/crates/hns-core/src/dns.rs). */
module Svcb {
  import opened Prelude
  import opened WireName
  import opened WireMessage
  import opened Rdata

  // ---------------------------------------------------------------- the parser's loops

  lemma ReadInTail(message: seq<byte>, cursor: nat, i: nat)
    requires cursor + i + 2 <= |message|
    ensures ReadU16(message[cursor..], i) == ReadU16(message, cursor + i)
  {
    assert message[cursor..][i..i + 2] == message[cursor + i..cursor + i + 2];
  }

  method ValidateMandatory(value: seq<byte>) returns (ok: bool)
    ensures ok == (value != [] && ValidMandatory(value, None))
  {
    if value == [] || |value| % 2 != 0 {
      if value != [] {
        OddIsInvalid(value, None);
      }
      return false;
    }
    var previous: Option<u16> := None;
    var cursor := 0;
    while cursor < |value|
      invariant cursor <= |value| && cursor % 2 == 0
      invariant ValidMandatory(value, None) == ValidMandatory(value[cursor..], previous)
    {
      var key := ReadU16(value, cursor);
      ReadInTail(value, cursor, 0);
      assert value[cursor..][2..] == value[cursor + 2..];
      if key == 0 || (previous.Some? && key <= previous.value) {
        return false;
      }
      previous := Some(key);
      cursor := cursor + 2;
    }
    return true;
  }

  lemma {:induction false} OddIsInvalid(value: seq<byte>, previous: Option<u16>)
    requires |value| % 2 != 0
    ensures !ValidMandatory(value, previous)
    decreases |value|
  {
    if |value| > 2 {
      OddIsInvalid(value[2..], Some(ReadU16(value, 0)));
    }
  }

  method ValidateAlpnIds(value: seq<byte>) returns (ok: bool)
    ensures ok == (value != [] && ValidAlpnList(value))
  {
    if value == [] {
      return false;
    }
    var cursor := 0;
    while cursor < |value|
      invariant cursor <= |value|
      invariant ValidAlpnList(value) == ValidAlpnList(value[cursor..])
    {
      var length := value[cursor] as nat;
      if length == 0 || cursor + 1 + length > |value| {
        return false;
      }
      assert value[cursor..][length + 1..] == value[cursor + 1 + length..];
      cursor := cursor + 1 + length;
    }
    return true;
  }

  // ---------------------------------------------------------------- what the values are

  function KeyOctets(keys: seq<u16>): seq<byte> {
    if keys == [] then [] else U16Bytes(keys[0]) + KeyOctets(keys[1..])
  }

  function IdOctets(ids: seq<seq<byte>>): seq<byte>
    requires forall i | 0 <= i < |ids| :: |ids[i]| < 0x100
  {
    if ids == [] then [] else [|ids[0]|] + ids[0] + IdOctets(ids[1..])
  }

  /** Rising from above the given key on, and none of them 0. */
  ghost predicate RisingKeys(keys: seq<u16>, previous: Option<u16>) {
    && (forall i | 0 <= i < |keys| :: keys[i] > 0 && (previous.Some? ==> keys[i] > previous.value))
    && (forall i, j | 0 <= i < j < |keys| :: keys[i] < keys[j])
  }

  ghost predicate Ids(ids: seq<seq<byte>>) {
    forall i | 0 <= i < |ids| :: 0 < |ids[i]| < 0x100
  }

  lemma {:induction false} RisingAreMandatory(keys: seq<u16>, previous: Option<u16>)
    requires RisingKeys(keys, previous)
    ensures ValidMandatory(KeyOctets(keys), previous)
    decreases |keys|
  {
    hide U16Bytes, ReadU16;
    if keys != [] {
      var value := KeyOctets(keys);
      assert value[2..] == KeyOctets(keys[1..]) && value[0..2] == U16Bytes(keys[0]);
      ReadU16Inverts(value, 0, keys[0]);
      RisingAreMandatory(keys[1..], Some(keys[0]));
    }
  }

  lemma {:induction false} MandatoryAreRising(value: seq<byte>, previous: Option<u16>) returns (keys: seq<u16>)
    requires ValidMandatory(value, previous)
    ensures RisingKeys(keys, previous) && KeyOctets(keys) == value
    decreases |value|
  {
    hide U16Bytes, ReadU16;
    if value == [] {
      keys := [];
    } else {
      var key := ReadU16(value, 0);
      var rest := MandatoryAreRising(value[2..], Some(key));
      keys := [key] + rest;
      U16Inverts(value, 0);
      assert keys[1..] == rest && value == value[0..2] + value[2..];
    }
  }

  /** The keys of a mandatory list are two octets each, rise strictly and are not 0. */
  lemma MandatoryIff(value: seq<byte>)
    ensures ValidMandatory(value, None) <==> exists keys :: RisingKeys(keys, None) && KeyOctets(keys) == value
  {
    if ValidMandatory(value, None) {
      var keys := MandatoryAreRising(value, None);
      assert RisingKeys(keys, None) && KeyOctets(keys) == value;
    }
    if exists keys :: RisingKeys(keys, None) && KeyOctets(keys) == value {
      var keys :| RisingKeys(keys, None) && KeyOctets(keys) == value;
      RisingAreMandatory(keys, None);
    }
  }

  lemma {:induction false} IdsAreAlpn(ids: seq<seq<byte>>)
    requires Ids(ids)
    ensures ValidAlpnList(IdOctets(ids))
    decreases |ids|
  {
    if ids != [] {
      var value := IdOctets(ids);
      assert value[0] == |ids[0]| && value[|ids[0]| + 1..] == IdOctets(ids[1..]);
      IdsAreAlpn(ids[1..]);
    }
  }

  lemma {:induction false} AlpnAreIds(value: seq<byte>) returns (ids: seq<seq<byte>>)
    requires ValidAlpnList(value)
    ensures Ids(ids) && IdOctets(ids) == value
    decreases |value|
  {
    if value == [] {
      ids := [];
    } else {
      var length := value[0] as nat;
      var rest := AlpnAreIds(value[length + 1..]);
      ids := [value[1..length + 1]] + rest;
      assert ids[1..] == rest && value == [value[0]] + value[1..length + 1] + value[length + 1..];
    }
  }

  /** Protocol identifiers stand behind their lengths, and none of them is empty. */
  lemma AlpnIff(value: seq<byte>)
    ensures ValidAlpnList(value) <==> exists ids :: Ids(ids) && IdOctets(ids) == value
  {
    if ValidAlpnList(value) {
      var ids := AlpnAreIds(value);
      assert Ids(ids) && IdOctets(ids) == value;
    }
    if exists ids :: Ids(ids) && IdOctets(ids) == value {
      var ids :| Ids(ids) && IdOctets(ids) == value;
      IdsAreAlpn(ids);
    }
  }

  function Concat(parts: seq<seq<byte>>): seq<byte> {
    if parts == [] then [] else parts[0] + Concat(parts[1..])
  }

  ghost predicate Parts(parts: seq<seq<byte>>, width: nat) {
    forall i | 0 <= i < |parts| :: |parts[i]| == width
  }

  lemma {:induction false} PartsFill(parts: seq<seq<byte>>, width: nat)
    requires Parts(parts, width)
    ensures |Concat(parts)| == |parts| * width
    decreases |parts|
  {
    if parts != [] {
      PartsFill(parts[1..], width);
      assert |parts| * width == width + (|parts| - 1) * width;
    }
  }

  lemma {:induction false} CutIntoParts(value: seq<byte>, width: nat, count: nat) returns (parts: seq<seq<byte>>)
    requires |value| == count * width
    ensures Parts(parts, width) && |parts| == count && Concat(parts) == value
    decreases count
  {
    parts := [];
    if count > 0 {
      assert count * width == width + (count - 1) * width;
      var rest := CutIntoParts(value[width..], width, count - 1);
      parts := [value[..width]] + rest;
      assert parts[1..] == rest && value == value[..width] + value[width..];
    }
  }

  ghost predicate IsParts(value: seq<byte>, width: nat) {
    exists parts :: parts != [] && Parts(parts, width) && Concat(parts) == value
  }

  lemma PartsIff(value: seq<byte>, width: nat)
    requires width == 4 || width == 16
    ensures IsParts(value, width) <==> value != [] && |value| % width == 0
  {
    if IsParts(value, width) {
      var parts :| parts != [] && Parts(parts, width) && Concat(parts) == value;
      PartsFill(parts, width);
      Whole(|parts|, width);
    }
    if value != [] && |value| % width == 0 {
      var count := |value| / width;
      assert |value| == count * width;
      var parts := CutIntoParts(value, width, count);
      assert parts != [];
    }
  }

  lemma Whole(count: nat, width: nat)
    requires (width == 4 || width == 16) && count > 0
    ensures count * width % width == 0 && count * width > 0
  {
    if width == 4 {
      assert count * 4 % 4 == 0;
    } else {
      assert count * 16 % 16 == 0;
    }
  }

  /** No value for no-default-alpn, a port of two octets, and addresses of four and of sixteen octets, at least one. */
  lemma ParamIff(value: seq<byte>)
    ensures ValidParam(2, value) <==> value == []
    ensures ValidParam(3, value) <==> |value| == 2
    ensures ValidParam(4, value) <==> IsParts(value, 4)
    ensures ValidParam(6, value) <==> IsParts(value, 16)
    ensures ValidParam(0, value) <==> value != [] && ValidMandatory(value, None)
    ensures ValidParam(1, value) <==> value != [] && ValidAlpnList(value)
  {
    PartsIff(value, 4);
    PartsIff(value, 16);
    hide IsParts, ValidMandatory, ValidAlpnList;
  }

  method ValidateParam(key: u16, value: seq<byte>) returns (ok: bool)
    ensures ok == ValidParam(key, value)
  {
    match key {
      case 0 => ok := ValidateMandatory(value);
      case 1 => ok := ValidateAlpnIds(value);
      case 2 => ok := value == [];
      case 3 => ok := |value| == 2;
      case 4 => ok := value != [] && |value| % 4 == 0;
      case 6 => ok := value != [] && |value| % 16 == 0;
      case _ => ok := true;
    }
  }

  method ParseUncompressedName(message: seq<byte>, offset: nat) returns (r: Result<Parsed, ParseError>)
    ensures r == WalkUncompressed(message, offset, [])
  {
    hide IsValidLabel, LabelsSize;
    var labels: DnsName := [];
    var cursor := offset;
    while true
      invariant WalkUncompressed(message, offset, []) == WalkUncompressed(message, cursor, labels)
      decreases |message| - cursor
    {
      if cursor >= |message| {
        return Err(InvalidSvcb);
      }
      var length := message[cursor] as nat;
      if length >= 0x40 {
        return Err(InvalidSvcb);
      }
      if length == 0 {
        return if LabelsSize(labels) + 1 > MAX_NAME_LEN + 2 then Err(LengthLimit) else Ok(Parsed(labels, cursor + 1));
      }
      var end := cursor + 1 + length;
      if end > |message| || !IsValidLabel(message[cursor + 1..end]) {
        return Err(InvalidSvcb);
      }
      labels := labels + [Lower(message[cursor + 1..end])];
      cursor := end;
    }
  }

  /** A parameter list that fails after some parameters fails as a whole. */
  ghost function Prepended(front: seq<SvcParam>, r: Result<seq<SvcParam>, ParseError>): Result<seq<SvcParam>, ParseError> {
    if r.Ok? then Ok(front + r.value) else r
  }

  method ParseSvcbRdata(rdata: seq<byte>) returns (r: Result<SvcbRecord, ParseError>)
    ensures r == ParseSvcb(rdata)
  {
    hide WalkUncompressed, ValidParam;
    if |rdata| < 3 {
      return Err(InvalidSvcb);
    }
    var target :- ParseUncompressedName(rdata, 2);
    var params: seq<SvcParam> := [];
    var previous: Option<u16> := None;
    var cursor := target.end;
    ghost var whole := ParseParams(rdata[target.end..], None);
    PrependNothing(whole);
    while cursor < |rdata|
      invariant cursor <= |rdata|
      invariant whole == Prepended(params, ParseParams(rdata[cursor..], previous))
    {
      ghost var tail := rdata[cursor..];
      if cursor + 4 > |rdata| {
        return Err(InvalidSvcb);
      }
      var key, length := ReadU16(rdata, cursor), ReadU16(rdata, cursor + 2);
      ReadInTail(rdata, cursor, 0);
      ReadInTail(rdata, cursor, 2);
      if previous.Some? && key <= previous.value {
        return Err(InvalidSvcb);
      }
      var end: nat := cursor + 4 + length;
      if end > |rdata| {
        return Err(InvalidSvcb);
      }
      assert tail[4..length + 4] == rdata[cursor + 4..end] && tail[length + 4..] == rdata[end..];
      var ok := ValidateParam(key, rdata[cursor + 4..end]);
      if !ok {
        return Err(InvalidSvcb);
      }
      var param := SvcParam(key, rdata[cursor + 4..end]);
      PrependMore(params, param, ParseParams(rdata[end..], Some(key)));
      params := params + [param];
      previous := Some(key);
      cursor := end;
    }
    assert rdata[cursor..] == [] && params + [] == params;
    return Ok(SvcbRecord(ReadU16(rdata, 0), target.name, params));
  }

  lemma PrependNothing(r: Result<seq<SvcParam>, ParseError>)
    ensures Prepended([], r) == r
  {
    if r.Ok? {
      assert [] + r.value == r.value;
    }
  }

  lemma PrependMore(front: seq<SvcParam>, param: SvcParam, r: Result<seq<SvcParam>, ParseError>)
    ensures Prepended(front, Prepended([param], r)) == Prepended(front + [param], r)
  {
    if r.Ok? {
      assert front + ([param] + r.value) == front + [param] + r.value;
    }
  }

  // ---------------------------------------------------------------- round trip

  /** Keys strictly increase, and every value is valid for its key and short enough. */
  predicate Increasing(params: seq<SvcParam>, previous: Option<u16>)
    decreases |params|
  {
    params == [] || (
      && (previous.Some? ==> params[0].key > previous.value)
      && |params[0].value| < 0x1_0000 && ValidParam(params[0].key, params[0].value)
      && Increasing(params[1..], Some(params[0].key)))
  }

  ghost predicate WellFormedSvcb(r: SvcbRecord) {
    WellFormed(r.target) && Encodable(r.target) && Increasing(r.params, None)
  }

  function EncodeSvcb(r: SvcbRecord): seq<byte>
    requires Encodable(r.target)
  {
    U16Bytes(r.priority) + (Wire(r.target) + EncodeParams(r.params))
  }

  lemma {:induction false} ParamsAreIncreasing(tail: seq<byte>, previous: Option<u16>)
    requires ParseParams(tail, previous).Ok?
    ensures Increasing(ParseParams(tail, previous).value, previous)
    decreases |tail|
  {
    hide ValidParam;
    if tail != [] {
      var key, length := ReadU16(tail, 0), ReadU16(tail, 2);
      ParamsAreIncreasing(tail[length + 4..], Some(key));
    }
  }

  lemma {:induction false} ParamsRoundTrip(params: seq<SvcParam>, previous: Option<u16>)
    requires Increasing(params, previous)
    ensures ParseParams(EncodeParams(params), previous) == Ok(params)
    decreases |params|
  {
    hide ValidParam, U16Bytes, ReadU16;
    if params != [] {
      var param, rest := params[0], EncodeParams(params[1..]);
      ParamsRoundTrip(params[1..], Some(param.key));
      ParamReads(EncodeParams(params), param, rest);
      assert params == [param] + params[1..];
    }
  }

  /** The fields of the first parameter of an encoded list. */
  lemma ParamReads(out: seq<byte>, param: SvcParam, rest: seq<byte>)
    requires |param.value| < 0x1_0000
    requires out == U16Bytes(param.key) + U16Bytes(|param.value| % 0x1_0000) + param.value + rest
    ensures |out| >= 4 && ReadU16(out, 0) == param.key && ReadU16(out, 2) == |param.value|
    ensures |param.value| + 4 <= |out| && out[4..|param.value| + 4] == param.value && out[|param.value| + 4..] == rest
  {
    assert out[0..2] == U16Bytes(param.key) && out[2..4] == U16Bytes(|param.value| % 0x1_0000);
    ReadU16Inverts(out, 0, param.key);
    ReadU16Inverts(out, 2, |param.value|);
  }

  /** Whatever the parser accepts has a well-formed target and strictly increasing, valid parameters. */
  lemma ParsedSvcbIsWellFormed(rdata: seq<byte>)
    requires ParseSvcb(rdata).Ok?
    ensures WellFormedSvcb(ParseSvcb(rdata).value)
  {
    hide ParseParams, Increasing, WellFormed;
    WalkUncompressedIsSound(rdata, 2, []);
    var target := WalkUncompressed(rdata, 2, []).value;
    WellFormedIsEncodable(target.name);
    ParamsAreIncreasing(rdata[target.end..], None);
  }

  /** Every such record is read back from its encoding, so its encoding is its canonical RDATA. */
  lemma SvcbRoundTrip(r: SvcbRecord)
    requires WellFormedSvcb(r)
    ensures ParseSvcb(EncodeSvcb(r)) == Ok(r) && CanonicalSvcb(EncodeSvcb(r)) == Ok(EncodeSvcb(r))
  {
    ParamsRoundTrip(r.params, None);
    hide WellFormed, Wire, ParseParams, EncodeParams, Increasing, ParseSvcb;
    SvcbReads(EncodeSvcb(r), r.priority, r.target, EncodeParams(r.params));
  }

  /** Two RDATA strings have the same canonical form exactly when they parse to the same record. */
  lemma SameCanonicalSvcb(a: seq<byte>, b: seq<byte>)
    requires ParseSvcb(a).Ok? && ParseSvcb(b).Ok?
    ensures CanonicalSvcb(a).Ok? && CanonicalSvcb(b).Ok?
    ensures CanonicalSvcb(a) == CanonicalSvcb(b) <==> ParseSvcb(a) == ParseSvcb(b)
  {
    ParsedSvcbIsWellFormed(a);
    ParsedSvcbIsWellFormed(b);
    hide WellFormed, Wire, ParseParams, EncodeParams, Increasing, ParseSvcb;
    SvcbRoundTrip(ParseSvcb(a).value);
    SvcbRoundTrip(ParseSvcb(b).value);
  }
}
