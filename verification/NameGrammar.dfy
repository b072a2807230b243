/**
 * What the parser of compressed names reads (section 4.1.4 of RFC 1035; rust/crates/hns-core/src/dns.rs),
 * said over the octets of the message alone.
 */
module NameGrammar {
  import opened Prelude
  import opened WireName

  /** The octets of a label and the label that is kept: letters are folded to lower case, "*" stands alone. */
  predicate Folds(octets: seq<byte>, kept: Label) {
    && |octets| == |kept|
    && ((octets == [0x2a] && kept == [0x2a]) ||
        forall i | 0 <= i < |octets| ::
          if 0x41 <= octets[i] <= 0x5a then kept[i] == octets[i] + 0x20
          else kept[i] == octets[i]
               && (octets[i] == 0x2d || octets[i] == 0x5f || 0x30 <= octets[i] <= 0x39 || 0x61 <= octets[i] <= 0x7a))
  }

  /**
   * A name stands at a position: labels behind their lengths, then either the octet 0, or two octets
   * whose low 14 bits, most significant first, say where the rest of it stands. `hops` counts the
   * latter, `end` is just past what stands at the position itself.
   */
  ghost predicate Stands(message: seq<byte>, at: nat, name: DnsName, end: nat, hops: nat)
    decreases hops, |name|, 0
  {
    && at < |message|
    && if message[at] == 0 then name == [] && end == at + 1 && hops == 0
       else if message[at] < 64 then
         && name != [] && |name[0]| == message[at] && at + 1 + |name[0]| <= |message|
         && Folds(message[at + 1..at + 1 + |name[0]|], name[0])
         && Stands(message, at + 1 + |name[0]|, name[1..], end, hops)
       else
         && message[at] >= 192 && at + 1 < |message| && hops > 0 && end == at + 2
         && GoesOn(message, (message[at] as int - 192) * 256 + message[at + 1] as int, name, hops - 1)
  }

  ghost predicate GoesOn(message: seq<byte>, at: nat, name: DnsName, hops: nat)
    decreases hops, |name|, 1
  {
    exists end :: Stands(message, at, name, end, hops)
  }

  lemma FoldsIff(octets: seq<byte>, kept: Label)
    ensures Folds(octets, kept) <==> IsValidLabel(octets) && kept == Lower(octets)
  {
    if octets == [0x2a] {
      assert Lower(octets)[0] == 0x2a;
    }
    if Folds(octets, kept) {
      assert forall i | 0 <= i < |octets| :: Lower(octets)[i] == kept[i];
    }
  }

  lemma PointerIs(high: byte, low: byte)
    requires high >= 192
    ensures PointerTarget(high, low) == (high as int - 192) * 256 + low as int
  {
  }

  lemma LabelIsKept(labels: DnsName, rest: DnsName)
    requires rest != []
    ensures labels + [rest[0]] + rest[1..] == labels + rest
    ensures LabelsSize(labels + [rest[0]]) <= LabelsSize(labels + rest)
  {
    assert labels + [rest[0]] + rest[1..] == labels + rest;
    SizeOfPrefix(labels + [rest[0]], rest[1..]);
  }

  /** The walk over a name that stands there, from any state of the parser. */
  lemma {:induction false} WalkReads(
    message: seq<byte>, at: nat, jumps: nat, labels: DnsName, consumed: Option<nat>, rest: DnsName, end: nat, hops: nat)
    requires jumps <= MAX_JUMPS && Stands(message, at, rest, end, hops) && LabelsSize(labels + rest) <= MAX_NAME_LEN + 1
    ensures Walk(message, at, jumps, labels, consumed)
      == if jumps + hops <= MAX_JUMPS then Ok(Parsed(labels + rest, if consumed.Some? then consumed.value else end))
         else Err(InvalidDnsPointer)
    decreases hops, |rest|
  {
    hide LabelsSize, IsValidLabel, Lower, Folds, PointerTarget;
    if message[at] == 0 {
      assert labels + [] == labels;
    } else if message[at] < 64 {
      var octets := message[at + 1..at + 1 + |rest[0]|];
      FoldsIff(octets, rest[0]);
      LabelIsKept(labels, rest);
      WalkReads(message, at + 1 + |rest[0]|, jumps, labels + [rest[0]], consumed, rest[1..], end, hops);
    } else {
      PointerIs(message[at], message[at + 1]);
      var target := PointerTarget(message[at], message[at + 1]);
      var e :| Stands(message, target, rest, e, hops - 1);
      if jumps < MAX_JUMPS {
        WalkReads(message, target, jumps + 1, labels, if consumed.Some? then consumed else Some(at + 2), rest, e, hops - 1);
      }
    }
  }

  /** Whatever the walk accepts stands there. */
  lemma {:induction false} WalkFinds(message: seq<byte>, at: nat, jumps: nat, labels: DnsName, consumed: Option<nat>)
    returns (rest: DnsName, end: nat, hops: nat)
    requires jumps <= MAX_JUMPS && LabelsSize(labels) <= MAX_NAME_LEN + 1 && Walk(message, at, jumps, labels, consumed).Ok?
    ensures Stands(message, at, rest, end, hops) && jumps + hops <= MAX_JUMPS && LabelsSize(labels + rest) <= MAX_NAME_LEN + 1
    ensures Walk(message, at, jumps, labels, consumed)
      == Ok(Parsed(labels + rest, if consumed.Some? then consumed.value else end))
    decreases MAX_JUMPS - jumps, |message| - at
  {
    hide LabelsSize, IsValidLabel, Lower, Folds, PointerTarget;
    if message[at] == 0 {
      rest, end, hops := [], at + 1, 0;
      assert labels + rest == labels;
    } else if message[at] < 64 {
      var stop := at + 1 + message[at];
      var kept := Lower(message[at + 1..stop]);
      FoldsIff(message[at + 1..stop], kept);
      rest, end, hops := WalkFinds(message, stop, jumps, labels + [kept], consumed);
      assert labels + ([kept] + rest) == labels + [kept] + rest && ([kept] + rest)[1..] == rest;
      rest := [kept] + rest;
    } else {
      PointerIs(message[at], message[at + 1]);
      var target := PointerTarget(message[at], message[at + 1]);
      var e;
      rest, e, hops := WalkFinds(message, target, jumps + 1, labels, if consumed.Some? then consumed else Some(at + 2));
      end, hops := at + 2, hops + 1;
      assert GoesOn(message, target, rest, hops - 1);
    }
  }

  /** The length octets and label octets of a name fit into 254 octets. */
  ghost predicate Fits(name: DnsName) { LabelsSize(name) <= 254 }

  /** A name that stands there is read if at most 16 pointers lead through it, and refused at the 17th. */
  lemma StandingNameIsRead(message: seq<byte>, offset: nat, name: DnsName, end: nat, hops: nat)
    requires Stands(message, offset, name, end, hops) && Fits(name)
    ensures ParseName(message, offset) == if hops <= 16 then Ok(Parsed(name, end)) else Err(InvalidDnsPointer)
  {
    assert [] + name == name;
    WalkReads(message, offset, 0, [], None, name, end, hops);
  }

  ghost predicate Reads(message: seq<byte>, at: nat, name: DnsName, end: nat) {
    Fits(name) && exists hops :: 0 <= hops <= 16 && Stands(message, at, name, end, hops)
  }

  /** The parser accepts exactly the names that stand there behind at most 16 pointers. */
  lemma ParseNameIff(message: seq<byte>, offset: nat, name: DnsName, end: nat)
    ensures ParseName(message, offset) == Ok(Parsed(name, end)) <==> Reads(message, offset, name, end)
  {
    hide Stands, Walk, LabelsSize;
    if Reads(message, offset, name, end) {
      var hops :| 0 <= hops <= 16 && Stands(message, offset, name, end, hops);
      StandingNameIsRead(message, offset, name, end, hops);
    }
    if ParseName(message, offset) == Ok(Parsed(name, end)) {
      NoLabels();
      var rest, e, hops := WalkFinds(message, offset, 0, [], None);
      assert [] + rest == rest == name && e == end;
      assert 0 <= hops <= 16;
    }
  }

  lemma NoLabels()
    ensures LabelsSize([]) == 0
  {
  }

  // ---------------------------------------------------------------- encoded labels before a pointer

  predicate Stored(labels: DnsName) {
    forall i | 0 <= i < |labels| :: IsStoredLabel(labels[i])
  }

  /** The labels of a name behind their lengths, without the final octet 0. */
  function LabelOctets(labels: DnsName): seq<byte>
    requires Stored(labels)
  {
    if labels == [] then [] else [|labels[0]|] + labels[0] + LabelOctets(labels[1..])
  }

  lemma StoredFolds(octets: Label)
    requires IsStoredLabel(octets)
    ensures Folds(octets, octets)
  {
    FoldsIff(octets, octets);
  }

  /** Labels stand before whatever stands behind them. */
  lemma {:induction false} LabelsStand(message: seq<byte>, at: nat, labels: DnsName, rest: DnsName, end: nat, hops: nat)
    requires Stored(labels)
    requires At(message, at, LabelOctets(labels)) && Stands(message, at + |LabelOctets(labels)|, rest, end, hops)
    ensures Stands(message, at, labels + rest, end, hops)
    decreases |labels|
  {
    hide Folds, IsStoredLabel, At;
    if labels == [] {
      assert labels + rest == rest;
    } else {
      var first := labels[0];
      LabelLength(first);
      AtConcat(message, at, [|first|] + first, LabelOctets(labels[1..]));
      AtConcat(message, at, [|first|], first);
      OctetsAt(message, at, first);
      StoredFolds(first);
      LabelsStand(message, at + 1 + |first|, labels[1..], rest, end, hops);
      assert (labels + rest)[1..] == labels[1..] + rest;
    }
  }

  lemma LabelLength(octets: Label)
    requires IsStoredLabel(octets)
    ensures 0 < |octets| < 64
  {
  }

  lemma OctetsAt(message: seq<byte>, at: nat, octets: seq<byte>)
    requires |octets| < 256 && At(message, at, [|octets|]) && At(message, at + 1, octets)
    ensures at + 1 + |octets| <= |message| && message[at] == |octets| && message[at + 1..at + 1 + |octets|] == octets
  {
    assert message[at] == message[at..at + 1][0];
  }

  lemma PointerStands(message: seq<byte>, at: nat, t: nat, rest: DnsName, end: nat, hops: nat)
    requires t < 0x4000 && At(message, at, [0xc0 + t / 256, t % 256]) && Stands(message, t, rest, end, hops)
    ensures Stands(message, at, rest, at + 2, hops + 1)
  {
    assert message[at] == message[at..at + 2][0] && message[at + 1] == message[at..at + 2][1];
    assert (message[at] as int - 192) * 256 + message[at + 1] as int == t;
    assert GoesOn(message, t, rest, hops);
  }

  /** Labels and then a pointer, whose 14 bits are t: the name goes on at t. */
  lemma PointerIsFollowed(message: seq<byte>, offset: nat, labels: DnsName, t: nat, rest: DnsName, end: nat, hops: nat)
    requires t < 0x4000 && Stored(labels)
    requires At(message, offset, LabelOctets(labels))
    requires At(message, offset + |LabelOctets(labels)|, [0xc0 + t / 256, t % 256])
    requires Stands(message, t, rest, end, hops) && Fits(labels + rest)
    ensures ParseName(message, offset)
      == if hops < 16 then Ok(Parsed(labels + rest, offset + |LabelOctets(labels)| + 2)) else Err(InvalidDnsPointer)
  {
    hide *;
    var at := offset + |LabelOctets(labels)|;
    PointerStands(message, at, t, rest, end, hops);
    LabelsStand(message, offset, labels, rest, at + 2, hops + 1);
    StandingNameIsRead(message, offset, labels + rest, at + 2, hops + 1);
  }

  /** And so an encoded name stands where it is encoded. */
  lemma {:induction false} EncodedStands(message: seq<byte>, at: nat, name: DnsName)
    requires Stored(name) && Encodable(name) && At(message, at, Wire(name))
    ensures Stands(message, at, name, at + |Wire(name)|, 0)
    decreases |name|
  {
    hide Folds, IsStoredLabel, At;
    if name == [] {
      OctetsAtRoot(message, at);
    } else {
      LabelLength(name[0]);
      AtConcat(message, at, [|name[0]|] + name[0], Wire(name[1..]));
      AtConcat(message, at, [|name[0]|], name[0]);
      OctetsAt(message, at, name[0]);
      StoredFolds(name[0]);
      EncodedStands(message, at + 1 + |name[0]|, name[1..]);
    }
  }

  lemma OctetsAtRoot(message: seq<byte>, at: nat)
    requires At(message, at, [0])
    ensures at < |message| && message[at] == 0
  {
    assert message[at] == message[at..at + 1][0];
  }
}
