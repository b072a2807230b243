/**
 * Names as dotted text (rust/crates/hns-core/src/dns.rs): the parser `from_ascii`, and the joined
 * form that the validators feed back into it.
 */
module NameText {
  import opened Prelude
  import opened WireName

  const DOT: byte := 0x2e

  predicate IsSpace(b: byte) { 9 <= b <= 13 || b == 32 }

  function TrimStart(text: seq<byte>): seq<byte> {
    if text != [] && IsSpace(text[0]) then TrimStart(text[1..]) else text
  }

  function TrimEnd(text: seq<byte>): seq<byte> {
    if text != [] && IsSpace(text[|text| - 1]) then TrimEnd(text[..|text| - 1]) else text
  }

  function TrimDots(text: seq<byte>): seq<byte> {
    if text != [] && text[|text| - 1] == DOT then TrimDots(text[..|text| - 1]) else text
  }

  function FirstDot(text: seq<byte>): (i: nat)
    ensures i <= |text| && (i < |text| ==> text[i] == DOT)
    ensures forall k | 0 <= k < i :: text[k] != DOT
  {
    if text == [] || text[0] == DOT then 0 else 1 + FirstDot(text[1..])
  }

  /** The pieces between the dots; one more than there are dots. */
  function Split(text: seq<byte>): (r: seq<seq<byte>>)
    ensures r != []
    decreases |text|
  {
    var i := FirstDot(text);
    if i == |text| then [text] else [text[..i]] + Split(text[i + 1..])
  }

  predicate AcceptableLabel(octets: Label) {
    0 < |octets| <= MAX_LABEL_LEN && IsValidLabel(octets)
  }

  function Lowered(pieces: seq<seq<byte>>): Result<DnsName, ParseError> {
    if pieces == [] then Ok([])
    else
      var front :- Lowered(pieces[..|pieces| - 1]);
      if AcceptableLabel(pieces[|pieces| - 1]) then Ok(front + [Lower(pieces[|pieces| - 1])]) else Err(InvalidDnsLabel)
  }

  function Trimmed(text: seq<byte>): seq<byte> { TrimDots(TrimEnd(TrimStart(text))) }

  function FromAscii(text: seq<byte>): Result<DnsName, ParseError> {
    var trimmed := Trimmed(text);
    if trimmed == [] then Ok([])
    else
      var name :- Lowered(Split(trimmed));
      if LabelsSize(name) + 1 > MAX_NAME_LEN + 2 then Err(LengthLimit) else Ok(name)
  }

  method ParseText(text: seq<byte>) returns (r: Result<DnsName, ParseError>)
    ensures r == FromAscii(text)
  {
    var trimmed := Trimmed(text);
    if trimmed == [] {
      return Ok([]);
    }
    hide Split, Trimmed, AcceptableLabel, LabelsSize;
    var pieces := Split(trimmed);
    var labels: DnsName := [];
    for i := 0 to |pieces|
      invariant Lowered(pieces[..i]) == Ok(labels)
    {
      assert pieces[..i + 1][..i] == pieces[..i];
      if !AcceptableLabel(pieces[i]) {
        LoweredFailure(pieces, i + 1);
        return Err(InvalidDnsLabel);
      }
      labels := labels + [Lower(pieces[i])];
    }
    assert pieces[..|pieces|] == pieces;
    if LabelsSize(labels) + 1 > MAX_NAME_LEN + 2 {
      return Err(LengthLimit);
    }
    return Ok(labels);
  }

  lemma {:induction false} LoweredFailure(pieces: seq<seq<byte>>, n: nat)
    requires n <= |pieces| && Lowered(pieces[..n]).Err?
    ensures Lowered(pieces) == Err(InvalidDnsLabel)
    decreases |pieces|
  {
    if n < |pieces| {
      assert pieces[..|pieces| - 1][..n] == pieces[..n];
      LoweredFailure(pieces[..|pieces| - 1], n);
    } else {
      assert pieces[..n] == pieces;
      LoweredError(pieces);
    }
  }

  lemma {:induction false} LoweredError(pieces: seq<seq<byte>>)
    requires Lowered(pieces).Err?
    ensures Lowered(pieces) == Err(InvalidDnsLabel)
  {
    if pieces != [] && Lowered(pieces[..|pieces| - 1]).Err? {
      LoweredError(pieces[..|pieces| - 1]);
    }
  }

  // ---------------------------------------------------------------- joined names

  function Join(name: DnsName): seq<byte> {
    if name == [] then [] else if |name| == 1 then name[0] else name[0] + [DOT] + Join(name[1..])
  }

  lemma LabelHasNoDot(octets: Label)
    requires AcceptableLabel(octets)
    ensures forall i | 0 <= i < |octets| :: octets[i] != DOT && !IsSpace(octets[i])
  {
  }

  lemma {:induction false} JoinEnds(name: DnsName)
    requires name != [] && forall i | 0 <= i < |name| :: AcceptableLabel(name[i])
    ensures var t := Join(name);
      t != [] && !IsSpace(t[0]) && !IsSpace(t[|t| - 1]) && t[|t| - 1] != DOT
    decreases |name|
  {
    LabelHasNoDot(name[0]);
    if |name| > 1 {
      JoinEnds(name[1..]);
    }
  }

  lemma FirstDotAt(text: seq<byte>, i: nat)
    requires i < |text| && text[i] == DOT && forall k | 0 <= k < i :: text[k] != DOT
    ensures FirstDot(text) == i
  {
  }

  lemma {:induction false} SplitJoin(name: DnsName)
    requires name != [] && forall i | 0 <= i < |name| :: AcceptableLabel(name[i])
    ensures Split(Join(name)) == name
    decreases |name|
  {
    LabelHasNoDot(name[0]);
    var t := Join(name);
    if |name| == 1 {
      assert FirstDot(t) == |t|;
    } else {
      var rest := Join(name[1..]);
      assert t == name[0] + ([DOT] + rest);
      FirstDotAt(t, |name[0]|);
      assert t[..|name[0]|] == name[0] && t[|name[0]| + 1..] == rest;
      SplitJoin(name[1..]);
      assert name == [name[0]] + name[1..];
    }
  }

  lemma {:induction false} LoweredStored(name: DnsName)
    requires forall i | 0 <= i < |name| :: IsStoredLabel(name[i])
    ensures Lowered(name) == Ok(name)
    decreases |name|
  {
    if name != [] {
      LoweredStored(name[..|name| - 1]);
      assert name == name[..|name| - 1] + [name[|name| - 1]];
    }
  }

  /** Parsing the dotted text of stored labels gives them back, if they fit the length limit. */
  lemma FromAsciiInvertsJoin(name: DnsName)
    requires forall i | 0 <= i < |name| :: IsStoredLabel(name[i])
    ensures FromAscii(Join(name)) ==
      if LabelsSize(name) <= MAX_NAME_LEN + 1 then Ok(name) else Err(LengthLimit)
  {
    if name != [] {
      JoinEnds(name);
      SplitJoin(name);
      LoweredStored(name);
      assert Trimmed(Join(name)) == Join(name);
    }
  }

  /** Text gives only well-formed names. */
  lemma FromAsciiIsSound(text: seq<byte>)
    requires FromAscii(text).Ok?
    ensures WellFormed(FromAscii(text).value)
  {
    if Trimmed(text) != [] {
      LoweredIsStored(Split(Trimmed(text)));
    }
  }

  lemma {:induction false} LoweredIsStored(pieces: seq<seq<byte>>)
    requires Lowered(pieces).Ok?
    ensures forall i | 0 <= i < |Lowered(pieces).value| :: IsStoredLabel(Lowered(pieces).value[i])
    decreases |pieces|
  {
    if pieces != [] {
      LoweredIsStored(pieces[..|pieces| - 1]);
      LowerIsIdempotent(pieces[|pieces| - 1]);
    }
  }
}
