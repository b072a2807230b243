/** Names synthesised from addresses (rust/crates/hns-core/src/resource.rs). */
module SynthName {
  import opened Prelude
  import opened WireName
  import opened NameText
  import opened Base32Hex

  const UNDERSCORE: byte := 0x5f
  const SYNTH: Label := [0x5f, 0x73, 0x79, 0x6e, 0x74, 0x68]

  /** More octets than any address has; with more the first label would be too long. */
  const MAX_SYNTH_OCTETS: nat := 38

  function Synthesise(address: seq<byte>): Result<DnsName, ParseError> {
    FromAscii([UNDERSCORE] + Encode(address) + [DOT] + SYNTH)
  }

  lemma EncodedIsStored(address: seq<byte>)
    requires |address| <= MAX_SYNTH_OCTETS
    ensures IsStoredLabel([UNDERSCORE] + Encode(address)) && IsStoredLabel(SYNTH)
  {
    var m := EncodedLength(|address|);
    var octets := [UNDERSCORE] + Encode(address);
    var ds := Digits32(BigEndian(address) * Pow2(5 * m - 8 * |address|), m);
    assert |ds| == m && Encode(address) == Chars(ds);
    hide Encode, Digits32, Pow2, BigEndian;
    assert forall i | 0 < i < |octets| :: octets[i] == DigitChar(ds[i - 1]);
    assert Lower(octets) == octets;
    assert Lower(SYNTH) == SYNTH;
  }

  lemma OneLabel(octets: Label)
    ensures LabelsSize([octets]) == |octets| + 1
  {
    assert [octets][..0] == [];
  }

  /**
   * The name of an address has two labels, is a name that the wire codec keeps, and gives the
   * address back, so that no two addresses share a name.
   */
  lemma SynthNameHoldsTheAddress(address: seq<byte>)
    requires |address| <= MAX_SYNTH_OCTETS
    ensures Synthesise(address).Ok?
    ensures var name := Synthesise(address).value;
      |name| == 2 && name[1] == SYNTH && WellFormed(name) && name[0] != [] && Decode(name[0][1..]) == Some(address)
  {
    EncodedIsStored(address);
    DecodeInvertsEncode(address);
    hide Encode, Decode;
    var first := [UNDERSCORE] + Encode(address);
    var name: DnsName := [first, SYNTH];
    assert name[1..] == [SYNTH] && Join(name) == first + [DOT] + SYNTH;
    assert name[..1] == [first];
    assert LabelsSize(name) == LabelsSize([first]) + |SYNTH| + 1 && LabelsSize([first]) == |first| + 1 by { OneLabel(first); }
    FromAsciiInvertsJoin(name);
    assert first[1..] == Encode(address);
  }
}
