/**
 * Domain names on the wire and as text (rust/crates/hns-core/src/dns.rs): the parser with
 * compression pointers of RFC 1035 section 4.1.4, and the encoder it inverts.
 *
 * A label is its bytes; the parser only lets ASCII letters, digits, '-', '_' and the label "*"
 * through, so bytes and text agree.
 */
module WireName {
  import opened Prelude

  datatype ParseError =
    | UnexpectedEof | TrailingBytes | LengthLimit | InvalidDnsLabel | InvalidDnsPointer | InvalidSvcb

  type Label = seq<byte>
  type DnsName = seq<Label>

  const MAX_NAME_LEN: nat := 253
  const MAX_LABEL_LEN: nat := 63
  const MAX_JUMPS: nat := 16

  predicate IsAlphanumeric(b: byte) {
    0x30 <= b <= 0x39 || 0x41 <= b <= 0x5a || 0x61 <= b <= 0x7a
  }

  predicate IsValidLabel(octets: Label) {
    octets == [0x2a] || forall i | 0 <= i < |octets| :: IsAlphanumeric(octets[i]) || octets[i] == 0x2d || octets[i] == 0x5f
  }

  function LowerByte(b: byte): byte {
    if 0x41 <= b <= 0x5a then b + 0x20 else b
  }

  function Lower(octets: Label): (r: Label)
    ensures |r| == |octets|
  {
    seq(|octets|, i requires 0 <= i < |octets| => LowerByte(octets[i]))
  }

  lemma LowerIsIdempotent(octets: Label)
    ensures Lower(Lower(octets)) == Lower(octets)
    ensures IsValidLabel(octets) ==> IsValidLabel(Lower(octets))
  {
  }

  /** The length octets and label octets of a name, without the terminating root label. */
  function LabelsSize(name: DnsName): nat {
    if name == [] then 0 else LabelsSize(name[..|name| - 1]) + |name[|name| - 1]| + 1
  }

  /** Labels as the parser stores them. */
  predicate IsStoredLabel(octets: Label) {
    0 < |octets| <= MAX_LABEL_LEN && IsValidLabel(octets) && Lower(octets) == octets
  }

  /** Names as the parser returns them. */
  predicate WellFormed(name: DnsName) {
    && (forall i | 0 <= i < |name| :: IsStoredLabel(name[i]))
    && LabelsSize(name) <= MAX_NAME_LEN + 1
  }

  // ---------------------------------------------------------------- encoding

  /** The uncompressed wire form of a name whose labels are short enough. */
  function Wire(name: DnsName): (r: seq<byte>)
    requires forall i | 0 <= i < |name| :: |name[i]| <= MAX_LABEL_LEN
    ensures r != []
  {
    if name == [] then [0] else [|name[0]|] + name[0] + Wire(name[1..])
  }

  predicate Encodable(name: DnsName) {
    forall i | 0 <= i < |name| :: |name[i]| <= MAX_LABEL_LEN
  }

  function EncodeName(name: DnsName): Result<seq<byte>, ParseError> {
    if Encodable(name) then Ok(Wire(name)) else Err(InvalidDnsLabel)
  }

  method EncodeWire(name: DnsName, prefix: seq<byte>) returns (r: Result<seq<byte>, ParseError>)
    ensures r == match EncodeName(name) case Ok(bytes) => Ok(prefix + bytes) case Err(e) => Err(e)
  {
    var out := prefix;
    for i := 0 to |name|
      invariant Encodable(name[..i])
      invariant Encodable(name[i..]) ==> Encodable(name) && prefix + Wire(name) == out + Wire(name[i..])
    {
      if |name[i]| > MAX_LABEL_LEN {
        return Err(InvalidDnsLabel);
      }
      ghost var before := out;
      out := out + [|name[i]|] + name[i];
      if Encodable(name[i + 1..]) {
        assert name[i..][1..] == name[i + 1..];
        assert forall k | 0 <= k < |name| - i :: name[i..][k] == if k == 0 then name[i] else name[i + 1..][k - 1];
        assert before + ([|name[i]|] + name[i] + Wire(name[i + 1..])) == out + Wire(name[i + 1..]);
      }
    }
    out := out + [0];
    return Ok(out);
  }

  lemma {:induction false} WireSize(name: DnsName)
    requires Encodable(name)
    ensures |Wire(name)| == LabelsSize(name) + 1
    decreases |name|
  {
    if name != [] {
      WireSize(name[1..]);
      SizeFromFront(name);
    }
  }

  lemma {:induction false} SizeFromFront(name: DnsName)
    requires name != []
    ensures LabelsSize(name) == |name[0]| + 1 + LabelsSize(name[1..])
    decreases |name|
  {
    var n := |name| - 1;
    if n > 0 {
      SizeFromFront(name[..n]);
      assert name[..n][1..] == name[1..][..n - 1];
    }
  }

  lemma {:induction false} SizeOfPrefix(a: DnsName, b: DnsName)
    ensures LabelsSize(a + b) == LabelsSize(a) + LabelsSize(b)
    decreases |b|
  {
    if b == [] {
      assert a + b == a;
    } else {
      assert (a + b)[..|a + b| - 1] == a + b[..|b| - 1];
      SizeOfPrefix(a, b[..|b| - 1]);
    }
  }

  // ---------------------------------------------------------------- parsing

  /** The 14 low bits of a pointer's two octets. */
  function PointerTarget(high: nat, low: nat): nat {
    high % 0x40 * 0x100 + low
  }

  datatype Parsed = Parsed(name: DnsName, end: nat)

  /**
   * One run of the parser from a cursor, with the jumps and labels so far and the end of the name
   * once the first pointer has fixed it. Jumps are bounded; between jumps the cursor advances.
   */
  function Walk(message: seq<byte>, cursor: nat, jumps: nat, labels: DnsName, consumed: Option<nat>)
    : Result<Parsed, ParseError>
    requires jumps <= MAX_JUMPS
    decreases MAX_JUMPS - jumps, |message| - cursor
  {
    if cursor >= |message| then Err(UnexpectedEof)
    else
      var length := message[cursor];
      if length >= 0xc0 then
        if cursor + 1 >= |message| then Err(UnexpectedEof)
        else
          var pointer := PointerTarget(length, message[cursor + 1]);
          if pointer >= |message| || jumps == MAX_JUMPS then Err(InvalidDnsPointer)
          else Walk(message, pointer, jumps + 1, labels, if consumed.Some? then consumed else Some(cursor + 2))
      else if length >= 0x40 then Err(InvalidDnsLabel)
      else if length == 0 then Ok(Parsed(labels, if consumed.Some? then consumed.value else cursor + 1))
      else
        var end := cursor + 1 + length;
        if end > |message| then Err(UnexpectedEof)
        else
          var octets := message[cursor + 1..end];
          if !IsValidLabel(octets) then Err(InvalidDnsLabel)
          else if LabelsSize(labels + [Lower(octets)]) > MAX_NAME_LEN + 1 then Err(LengthLimit)
          else Walk(message, end, jumps, labels + [Lower(octets)], consumed)
  }

  function ParseName(message: seq<byte>, offset: nat): Result<Parsed, ParseError> {
    Walk(message, offset, 0, [], None)
  }

  method ParseWire(message: seq<byte>, offset: nat) returns (r: Result<Parsed, ParseError>)
    ensures r == ParseName(message, offset)
  {
    hide IsValidLabel, Lower, PointerTarget;
    var labels: DnsName := [];
    var cursor: nat := offset;
    var consumed: Option<nat> := None;
    var jumps := 0;
    var size := 0;
    while true
      invariant jumps <= MAX_JUMPS
      invariant size == LabelsSize(labels)
      invariant ParseName(message, offset) == Walk(message, cursor, jumps, labels, consumed)
      decreases MAX_JUMPS - jumps, |message| - cursor
    {
      if cursor >= |message| {
        return Err(UnexpectedEof);
      }
      var length := message[cursor];
      cursor := cursor + 1;
      if length / 0x40 == 3 {
        if cursor >= |message| {
          return Err(UnexpectedEof);
        }
        var next := message[cursor];
        cursor := cursor + 1;
        var pointer := PointerTarget(length, next);
        if pointer >= |message| {
          return Err(InvalidDnsPointer);
        }
        if consumed.None? {
          consumed := Some(cursor);
        }
        if jumps + 1 > MAX_JUMPS {
          return Err(InvalidDnsPointer);
        }
        cursor := pointer;
        jumps := jumps + 1;
        continue;
      }
      if length / 0x40 != 0 {
        return Err(InvalidDnsLabel);
      }
      if length == 0 {
        return Ok(Parsed(labels, if consumed.Some? then consumed.value else cursor));
      }
      var end: nat := cursor + length;
      if end > |message| {
        return Err(UnexpectedEof);
      }
      var octets := message[cursor..end];
      if !IsValidLabel(octets) {
        return Err(InvalidDnsLabel);
      }
      assert (labels + [Lower(octets)])[..|labels|] == labels;
      labels := labels + [Lower(octets)];
      size := size + |octets| + 1;
      if size > MAX_NAME_LEN + 1 {
        return Err(LengthLimit);
      }
      cursor := end;
    }
  }

  /** Whatever the bytes: a parsed name is well formed, and the reported end is inside the message. */
  lemma {:induction false} WalkIsSound(message: seq<byte>, cursor: nat, jumps: nat, labels: DnsName, consumed: Option<nat>)
    requires jumps <= MAX_JUMPS && WellFormed(labels)
    requires consumed.Some? ==> consumed.value <= |message|
    requires Walk(message, cursor, jumps, labels, consumed).Ok?
    ensures var p := Walk(message, cursor, jumps, labels, consumed).value;
      && WellFormed(p.name) && p.end <= |message|
      && (if consumed.Some? then p.end == consumed.value else cursor < p.end)
    decreases MAX_JUMPS - jumps, |message| - cursor
  {
    var length := message[cursor];
    if length >= 0xc0 {
      var pointer := PointerTarget(length, message[cursor + 1]);
      WalkIsSound(message, pointer, jumps + 1, labels, if consumed.Some? then consumed else Some(cursor + 2));
    } else if length != 0 {
      var end := cursor + 1 + length;
      var octets := message[cursor + 1..end];
      LowerIsIdempotent(octets);
      WalkIsSound(message, end, jumps, labels + [Lower(octets)], consumed);
    }
  }

  /** A parsed name ends past its start and inside the message, and re-encodes in at most 255 bytes. */
  lemma ParseNameIsSound(message: seq<byte>, offset: nat)
    requires ParseName(message, offset).Ok?
    ensures var p := ParseName(message, offset).value;
      && WellFormed(p.name)
      && offset < p.end <= |message|
      && EncodeName(p.name).Ok? && |EncodeName(p.name).value| <= 255
  {
    WalkIsSound(message, offset, 0, [], None);
    WireSize(ParseName(message, offset).value.name);
  }

  // ---------------------------------------------------------------- round trip

  lemma {:induction false} WalkOverWire(
    message: seq<byte>, cursor: nat, jumps: nat, labels: DnsName, consumed: Option<nat>, rest: DnsName)
    requires jumps <= MAX_JUMPS && WellFormed(labels + rest) && Encodable(rest)
    requires At(message, cursor, Wire(rest))
    ensures Walk(message, cursor, jumps, labels, consumed)
         == Ok(Parsed(labels + rest, if consumed.Some? then consumed.value else cursor + |Wire(rest)|))
    decreases |rest|
  {
    hide WellFormed, LabelsSize, At, Walk, IsStoredLabel;
    if rest == [] {
      WalkOverRoot(message, cursor, jumps, labels, consumed);
      assert labels + rest == labels;
    } else {
      AtConcat(message, cursor, [|rest[0]|] + rest[0], Wire(rest[1..]));
      FirstLabelFits(labels, rest);
      WalkOverLabel(message, cursor, jumps, labels, consumed, rest[0]);
      WalkOverWire(message, cursor + 1 + |rest[0]|, jumps, labels + [rest[0]], consumed, rest[1..]);
    }
  }

  lemma WalkOverRoot(message: seq<byte>, cursor: nat, jumps: nat, labels: DnsName, consumed: Option<nat>)
    requires jumps <= MAX_JUMPS && At(message, cursor, [0])
    ensures Walk(message, cursor, jumps, labels, consumed)
         == Ok(Parsed(labels, if consumed.Some? then consumed.value else cursor + 1))
  {
    assert message[cursor] == message[cursor..cursor + 1][0];
  }

  lemma FirstLabelFits(labels: DnsName, rest: DnsName)
    requires WellFormed(labels + rest) && rest != []
    ensures IsStoredLabel(rest[0]) && LabelsSize(labels + [rest[0]]) <= MAX_NAME_LEN + 1
    ensures labels + [rest[0]] + rest[1..] == labels + rest
  {
    hide IsStoredLabel, LabelsSize;
    assert (labels + rest)[|labels|] == rest[0];
    assert labels + [rest[0]] + rest[1..] == labels + rest;
    SizeOfPrefix(labels + [rest[0]], rest[1..]);
  }

  lemma WalkOverLabel(
    message: seq<byte>, cursor: nat, jumps: nat, labels: DnsName, consumed: Option<nat>, octets: Label)
    requires jumps <= MAX_JUMPS && IsStoredLabel(octets) && LabelsSize(labels + [octets]) <= MAX_NAME_LEN + 1
    requires At(message, cursor, [|octets|] + octets)
    ensures Walk(message, cursor, jumps, labels, consumed)
         == Walk(message, cursor + 1 + |octets|, jumps, labels + [octets], consumed)
  {
    hide LabelsSize, IsValidLabel;
    AtConcat(message, cursor, [|octets|], octets);
    assert message[cursor] == message[cursor..cursor + 1][0];
  }

  /** Parsing inverts encoding at any offset, whatever stands before and after. */
  lemma ParseInvertsEncode(message: seq<byte>, offset: nat, name: DnsName)
    requires WellFormed(name) && Encodable(name)
    requires At(message, offset, Wire(name))
    ensures ParseName(message, offset) == Ok(Parsed(name, offset + |Wire(name)|))
  {
    assert [] + name == name;
    WalkOverWire(message, offset, 0, [], None, name);
  }

  lemma WellFormedIsEncodable(name: DnsName)
    requires WellFormed(name)
    ensures Encodable(name)
  {
  }

  /** The wire form is a prefix code: two names read off the same position are the same name. */
  lemma WireIsPrefixFree(a: DnsName, b: DnsName, message: seq<byte>, offset: nat)
    requires WellFormed(a) && WellFormed(b) && Encodable(a) && Encodable(b)
    requires At(message, offset, Wire(a)) && At(message, offset, Wire(b))
    ensures a == b
  {
    ParseInvertsEncode(message, offset, a);
    ParseInvertsEncode(message, offset, b);
  }
}
