/**
 * Compact targets, proof-of-work and chainwork (rust/crates/hns-core/src/pow.rs).
 *
 * Big integers are `nat`; the 32-bit masks and shifts of the source are written as
 * division and remainder by powers of two.
 */
module Pow {
  import opened Arithmetic
  import opened Prelude

  datatype PowError = NegativeTarget | ZeroTarget | Overflow

  type Hash = s: seq<byte> | |s| == 32 witness Zeros(32)

  const TWO_256: nat := 0x1_0000_0000_0000_0000_0000_0000_0000_0000_0000_0000_0000_0000_0000_0000_0000_0000

  lemma TwoTo256()
    ensures Pow256(32) == TWO_256
  {
    assert Pow256(8) == 0x1_0000_0000_0000_0000;
    Pow256Add(8, 8);
    Pow256Add(16, 16);
  }

  /** Bits 24-31. */
  function Exponent(bits: u32): nat { bits / 0x100_0000 }

  /** Bits 0-22. */
  function Mantissa(bits: u32): nat { bits % 0x80_0000 }

  /** Bit 23. */
  predicate SignFlagged(bits: u32) { bits / 0x80_0000 % 2 == 1 }

  /** The mantissa moved to the place that the exponent says. */
  function Shifted(mantissa: nat, exponent: nat): nat {
    if exponent <= 3 then Quotient(mantissa, Pow256(3 - exponent)) else mantissa * Pow256(exponent - 3)
  }

  /** The number a compact form stands for. */
  function DecodeCompact(bits: u32): Result<nat, PowError> {
    if SignFlagged(bits) then Err(NegativeTarget)
    else
      var target := Shifted(Mantissa(bits), Exponent(bits));
      if target == 0 then Err(ZeroTarget)
      else if target >= TWO_256 then Err(Overflow)
      else Ok(target)
  }

  method CompactToTarget(bits: u32) returns (r: Result<nat, PowError>)
    ensures r == DecodeCompact(bits)
  {
    if bits / 0x80_0000 % 2 == 1 {
      return Err(NegativeTarget);
    }
    var exponent, mantissa := bits / 0x100_0000, bits % 0x80_0000;
    if mantissa == 0 {
      ShiftedZero(exponent);
      return Err(ZeroTarget);
    }
    var target := mantissa;
    if exponent <= 3 {
      target := target / Pow256(3 - exponent);
    } else {
      target := target * Pow256(exponent - 3);
    }
    if target == 0 {
      return Err(ZeroTarget);
    }
    if target >= TWO_256 {
      return Err(Overflow);
    }
    return Ok(target);
  }

  lemma ShiftedZero(exponent: nat)
    ensures Shifted(0, exponent) == 0
  {
    if exponent <= 3 {
      DivideSmall(0, Pow256(3 - exponent));
    }
  }

  lemma DivideSmall(a: nat, b: nat)
    requires a < b
    ensures a / b == 0
  {
  }

  // ---------------------------------------------------------------- encoding

  /** How many bytes the minimal big-endian form of a number has. */
  function ByteLength(t: nat): (n: nat)
    ensures n >= 1
    ensures t < Pow256(n)
    ensures t > 0 ==> Pow256(n - 1) <= t
  {
    if t < 256 then
      assert Pow256(1) == 256;
      1
    else 1 + ByteLength(t / 256)
  }

  lemma ByteLengthUnique(t: nat, n: nat)
    requires n >= 1 && Pow256(n - 1) <= t < Pow256(n)
    ensures ByteLength(t) == n
  {
    var k := ByteLength(t);
    if k < n {
      Pow256Monotone(k, n - 1);
    } else if k > n {
      Pow256Monotone(n, k - 1);
    }
  }

  /** The top three bytes of a number, as the compact encoder first takes them. */
  function TopBytes(t: nat): nat {
    var n := ByteLength(t);
    if n <= 3 then t * Pow256(3 - n) else t / Pow256(n - 3)
  }

  lemma TopBytesRange(t: nat)
    requires t > 0
    ensures 0x1_0000 <= TopBytes(t) < 0x100_0000
  {
    var n := ByteLength(t);
    assert Pow256(2) == 0x1_0000 && Pow256(3) == 0x100_0000;
    if n <= 3 {
      var k := Pow256(3 - n);
      Pow256Add(n - 1, 3 - n);
      Pow256Add(n, 3 - n);
      MulMonotone(Pow256(n - 1), t, k);
      MulMonotone(t + 1, Pow256(n), k);
      assert (t + 1) * k == t * k + k;
    } else {
      Pow256Add(2, n - 3);
      Pow256Add(3, n - 3);
      QuotientBounds(t, Pow256(n - 3), 0x1_0000, 0x100_0000);
    }
  }

  /** The compact form of a target below 2^256. */
  function EncodeCompact(t: nat): (bits: u32)
    requires t < TWO_256
  {
    if t == 0 then 0
    else
      TopBytesRange(t);
      LengthAtMost32(t);
      var n, top := ByteLength(t), TopBytes(t);
      if top >= 0x80_0000 then (n + 1) * 0x100_0000 + top / 256 else n * 0x100_0000 + top
  }

  lemma LengthAtMost32(t: nat)
    requires t < TWO_256
    ensures ByteLength(t) <= 32
  {
    TwoTo256();
    if t > 0 && ByteLength(t) > 32 {
      Pow256Monotone(32, ByteLength(t) - 1);
    }
  }

  method TargetToCompact(target: nat) returns (bits: u32)
    requires target < TWO_256
    ensures bits == EncodeCompact(target)
  {
    hide Pow256, ByteLength;
    if target == 0 {
      return 0;
    }
    TopBytesRange(target);
    LengthAtMost32(target);
    var exponent := ByteLength(target);
    var mantissa := if exponent <= 3 then target * Pow256(3 - exponent) else target / Pow256(exponent - 3);
    if mantissa / 0x80_0000 % 2 == 1 {
      mantissa := mantissa / 256;
      exponent := exponent + 1;
    }
    return exponent * 0x100_0000 + mantissa;
  }

  /** What one step of the mantissa is worth under this exponent. */
  function MantissaUnit(bits: u32): (unit: nat)
    ensures unit >= 1
  {
    if Exponent(bits) <= 3 then 1 else Pow256(Exponent(bits) - 3)
  }

  lemma CompactParts(n: nat, mantissa: nat)
    requires mantissa < 0x80_0000 && n < 256
    ensures var bits := n * 0x100_0000 + mantissa;
      Exponent(bits) == n && Mantissa(bits) == mantissa && !SignFlagged(bits)
  {
    var bits := n * 0x100_0000 + mantissa;
    assert bits == (2 * n) * 0x80_0000 + mantissa;
  }

  /** A target of at most three bytes loses nothing. */
  lemma EncodedShort(t: nat)
    requires 1 <= t < TWO_256 && Exponent(EncodeCompact(t)) <= 3
    ensures !SignFlagged(EncodeCompact(t))
    ensures Shifted(Mantissa(EncodeCompact(t)), Exponent(EncodeCompact(t))) == t
  {
    hide ByteLength;
    TopBytesRange(t);
    LengthAtMost32(t);
    var n, top, bits := ByteLength(t), TopBytes(t), EncodeCompact(t);
    assert Pow256(0) == 1 && Pow256(1) == 256 && Pow256(2) == 0x1_0000;
    if top >= 0x80_0000 {
      CompactParts(n + 1, top / 256);
      assert Exponent(bits) == n + 1 && Mantissa(bits) == top / 256;
    } else {
      CompactParts(n, top);
      assert Exponent(bits) == n && Mantissa(bits) == top;
    }
  }

  /** A longer target keeps a mantissa of at least 2^15 and loses less than one mantissa step. */
  lemma EncodedLong(t: nat)
    requires 1 <= t < TWO_256 && Exponent(EncodeCompact(t)) > 3
    ensures var bits := EncodeCompact(t);
      && !SignFlagged(bits)
      && 0x8000 <= Mantissa(bits)
      && bits == Exponent(bits) * 0x100_0000 + Mantissa(bits)
      && Mantissa(bits) * MantissaUnit(bits) <= t < Mantissa(bits) * MantissaUnit(bits) + MantissaUnit(bits)
  {
    hide Pow256, ByteLength, TopBytes;
    TopBytesRange(t);
    LengthAtMost32(t);
    var n, top, bits := ByteLength(t), TopBytes(t), EncodeCompact(t);
    if top >= 0x80_0000 {
      CompactParts(n + 1, top / 256);
      assert Exponent(bits) == n + 1 && Mantissa(bits) == top / 256;
      TopWithoutLowByte(t);
    } else {
      CompactParts(n, top);
      assert Exponent(bits) == n && Mantissa(bits) == top;
      TopQuotient(t);
    }
  }

  lemma TopQuotient(t: nat)
    requires ByteLength(t) > 3
    ensures var unit := Pow256(ByteLength(t) - 3);
      TopBytes(t) * unit <= t < TopBytes(t) * unit + unit
  {
    hide Pow256, ByteLength;
    QuotientRemainder(t, Pow256(ByteLength(t) - 3));
  }

  lemma TopWithoutLowByte(t: nat)
    requires ByteLength(t) >= 3
    ensures var unit := Pow256(ByteLength(t) - 2);
      TopBytes(t) / 256 * unit <= t < TopBytes(t) / 256 * unit + unit
  {
    hide Pow256, ByteLength, TopBytes;
    var n := ByteLength(t);
    Scale(Pow256(n - 3), n);
    if n == 3 {
      TopOfThree(t);
      QuotientRemainder(t, 256);
    } else {
      TopOfMore(t);
      QuotientTwice(t, Pow256(n - 3), 256);
    }
  }

  lemma TopOfThree(t: nat)
    requires ByteLength(t) == 3
    ensures TopBytes(t) == t && Pow256(1) == 256
  {
    hide ByteLength;
    assert Pow256(0) == 1;
  }

  lemma TopOfMore(t: nat)
    requires ByteLength(t) > 3
    ensures TopBytes(t) == t / Pow256(ByteLength(t) - 3)
  {
    hide Pow256, ByteLength;
  }

  /** Encoding rounds down by less than one mantissa step and never produces a sign flag. */
  lemma CompactRoundsDown(t: nat)
    requires 1 <= t < TWO_256
    ensures var bits := EncodeCompact(t);
      && !SignFlagged(bits)
      && DecodeCompact(bits).Ok?
      && DecodeCompact(bits).value == Shifted(Mantissa(bits), Exponent(bits))
      && DecodeCompact(bits).value <= t < DecodeCompact(bits).value + MantissaUnit(bits)
  {
    var bits := EncodeCompact(t);
    if Exponent(bits) <= 3 {
      EncodedShort(t);
    } else {
      EncodedLong(t);
      MulMonotone(1, Mantissa(bits), MantissaUnit(bits));
    }
  }

  /** Among the numbers with a compact form, the encoder picks the largest one at most the target. */
  lemma CompactIsLargestBelow(t: nat, other: u32)
    requires 1 <= t < TWO_256
    requires DecodeCompact(other).Ok? && DecodeCompact(other).value <= t
    ensures DecodeCompact(EncodeCompact(t)).Ok?
    ensures DecodeCompact(other).value <= DecodeCompact(EncodeCompact(t)).value
  {
    CompactRoundsDown(t);
    var bits := EncodeCompact(t);
    if Exponent(bits) > 3 {
      EncodedLong(t);
      if Exponent(other) >= Exponent(bits) {
        WholeUnits(other, Exponent(bits), Mantissa(bits), t);
      } else {
        SmallerExponent(other, Exponent(bits));
        MulMonotone(0x8000, Mantissa(bits), MantissaUnit(bits));
      }
    }
  }

  /** A compact number with a larger exponent is a whole number of units. */
  lemma WholeUnits(bits: u32, exponent: nat, m: nat, t: nat)
    requires DecodeCompact(bits).Ok? && Exponent(bits) >= exponent > 3
    requires DecodeCompact(bits).value <= t < m * Pow256(exponent - 3) + Pow256(exponent - 3)
    ensures DecodeCompact(bits).value <= m * Pow256(exponent - 3)
  {
    var unit, step := Pow256(exponent - 3), Pow256(Exponent(bits) - exponent);
    var k := Mantissa(bits) * step;
    Pow256Add(Exponent(bits) - exponent, exponent - 3);
    Associative(Mantissa(bits), step, unit);
    if k > m {
      MulStrict(m, k, unit);
    } else {
      MulMonotone(k, m, unit);
    }
  }

  lemma Associative(a: nat, b: nat, c: nat)
    ensures a * (b * c) == a * b * c
  {
  }

  /** A compact number with a smaller exponent stays below the smallest normalised mantissa. */
  lemma SmallerExponent(bits: u32, exponent: nat)
    requires DecodeCompact(bits).Ok? && Exponent(bits) < exponent && exponent > 3
    ensures DecodeCompact(bits).value <= 0x8000 * Pow256(exponent - 3)
  {
    var e, m := Exponent(bits), Mantissa(bits);
    if e <= 3 {
      QuotientAtMost(m, Pow256(3 - e));
    } else {
      Pow256Monotone(e - 3, exponent - 4);
      MulMonotone(m, 0x80_0000, Pow256(e - 3));
      assert 0x80_0000 * Pow256(exponent - 4) == 0x8000 * Pow256(exponent - 3);
    }
  }

  /** Encoding the decoded value gives the same bits back. */
  lemma CompactIsCanonical(t: nat)
    requires 1 <= t < TWO_256
    ensures var bits := EncodeCompact(t);
      DecodeCompact(bits).Ok? && DecodeCompact(bits).value < TWO_256 && EncodeCompact(DecodeCompact(bits).value) == bits
  {
    CompactRoundsDown(t);
    var bits := EncodeCompact(t);
    if Exponent(bits) <= 3 {
      EncodedShort(t);
    } else {
      EncodedLong(t);
      Normalised(Mantissa(bits), Exponent(bits), DecodeCompact(bits).value);
    }
  }

  /** A mantissa between 2^15 and 2^23 is the one the encoder chooses. */
  lemma Normalised(m: nat, e: nat, t: nat)
    requires 0x8000 <= m < 0x80_0000 && e > 3
    requires t == m * Pow256(e - 3) && 1 <= t < TWO_256
    ensures EncodeCompact(t) == e * 0x100_0000 + m
  {
    if m >= 0x1_0000 {
      LeadingBytes(t, m, e);
    } else {
      Associative(m, 256, Pow256(e - 4));
      LeadingBytes(t, m * 256, e - 1);
    }
  }

  /** A three-byte number followed by zero bytes is its own top. */
  lemma LeadingBytes(t: nat, top: nat, e: nat)
    requires 0x1_0000 <= top < 0x100_0000 && e >= 3 && t == top * Pow256(e - 3)
    ensures ByteLength(t) == e && TopBytes(t) == top
  {
    var unit := Pow256(e - 3);
    Scale(unit, e);
    MulMonotone(0x1_0000, top, unit);
    MulStrict(top, 0x100_0000, unit);
    ByteLengthUnique(t, e);
    if e > 3 {
      QuotientUnique(t, unit, top);
    }
  }

  lemma Scale(unit: nat, e: nat)
    requires e >= 3 && unit == Pow256(e - 3)
    ensures Pow256(e - 2) == 256 * unit && Pow256(e - 1) == 0x1_0000 * unit && Pow256(e) == 0x100_0000 * unit
  {
    assert Pow256(e - 2) == 256 * unit;
  }

  // ---------------------------------------------------------------- work

  function WorkForTarget(t: nat): Result<nat, PowError> {
    if t == 0 then Err(ZeroTarget) else Ok(TWO_256 / (t + 1))
  }

  function TargetForWork(work: nat): Result<nat, PowError> {
    if work == 0 || TWO_256 / work == 0 then Err(ZeroTarget) else Ok(TWO_256 / work - 1)
  }

  function WorkFromBits(bits: u32): Result<nat, PowError> {
    var target :- DecodeCompact(bits);
    WorkForTarget(target)
  }

  /** Work and target determine each other: asking for at least this work is asking for at most that target. */
  lemma WorkTargetGalois(t: nat, work: nat)
    requires t >= 1 && work >= 1
    ensures work <= WorkForTarget(t).value
      <==> TargetForWork(work).Ok? && t <= TargetForWork(work).value
  {
    QuotientAtLeast(TWO_256, t + 1, work);
    QuotientAtLeast(TWO_256, work, t + 1);
  }

  /** The work of a target is how many times its hashes, zero among them, fit into all 2^256. */
  lemma WorkIsShare(t: nat)
    requires t >= 1
    ensures WorkForTarget(t).Ok?
    ensures var w := WorkForTarget(t).value; w * (t + 1) <= TWO_256 < (w + 1) * (t + 1)
  {
    QuotientAtLeast(TWO_256, t + 1, WorkForTarget(t).value);
    QuotientAtLeast(TWO_256, t + 1, WorkForTarget(t).value + 1);
  }

  /** The four octets of a compact form: the exponent, and a three-octet number that it moves. */
  lemma CompactOctets(exponent: byte, a: byte, b: byte, c: byte, bits: u32)
    requires bits == BigEndian([exponent, a, b, c])
    ensures a >= 0x80 ==> DecodeCompact(bits) == Err(NegativeTarget)
    ensures a < 0x80 && 3 <= exponent <= 32 && (a != 0 || b != 0 || c != 0) ==>
      DecodeCompact(bits) == Ok(BigEndian([a, b, c] + Zeros(exponent - 3)))
  {
    var m := BigEndian([a, b, c]);
    ThreeOctets(a, b, c);
    LeadingByte([exponent, a, b, c]);
    assert [exponent, a, b, c][1..] == [a, b, c] && Pow256(3) == 0x100_0000;
    CompactFields(bits, exponent, a, m);
    if a < 0x80 && 3 <= exponent <= 32 && m != 0 {
      MovedMantissa(m, [a, b, c], exponent);
      hide Pow256, BigEndian, Shifted, Exponent, Mantissa, SignFlagged;
    }
  }

  lemma ThreeOctets(a: byte, b: byte, c: byte)
    ensures BigEndian([a, b, c]) == a * 0x1_0000 + b * 0x100 + c
  {
    assert [a, b, c][..2] == [a, b] && [a, b][..1] == [a] && [a][..0] == [];
    assert BigEndian([]) == 0 && BigEndian([a]) == a && BigEndian([a, b]) == a * 256 + b;
  }

  lemma CompactFields(bits: u32, exponent: byte, a: byte, m: nat)
    requires bits == exponent * 0x100_0000 + m && a * 0x1_0000 <= m < a * 0x1_0000 + 0x1_0000
    ensures SignFlagged(bits) <==> a >= 0x80
    ensures a < 0x80 ==> Exponent(bits) == exponent && Mantissa(bits) == m
  {
    if a < 0x80 {
      CompactParts(exponent, m);
    } else {
      assert bits / 0x80_0000 == 2 * exponent + 1;
    }
  }

  lemma MovedMantissa(m: nat, s: seq<byte>, exponent: nat)
    requires 3 <= exponent <= 32 && |s| == 3 && m == BigEndian(s) && m > 0
    ensures Shifted(m, exponent) == BigEndian(s + Zeros(exponent - 3))
    ensures 0 < Shifted(m, exponent) < TWO_256
  {
    hide Pow256, BigEndian;
    BigEndianZeros(exponent - 3);
    BigEndianConcat(s, Zeros(exponent - 3));
    BigEndianBound(s + Zeros(exponent - 3));
    Pow256Monotone(exponent, 32);
    TwoTo256();
    PositiveProduct(m, Pow256(exponent - 3));
    ShiftedUp(m, exponent);
  }

  lemma PositiveProduct(m: nat, p: nat)
    requires p >= 1
    ensures m * p == 0 <==> m == 0
  {
  }

  lemma ShiftedUp(mantissa: nat, exponent: nat)
    requires exponent >= 3
    ensures Shifted(mantissa, exponent) == mantissa * Pow256(exponent - 3)
  {
    if exponent == 3 {
      assert Pow256(0) == 1;
    }
  }

  /** A larger target asks for no more work, and more work allows no larger target. */
  lemma WorkIsAntitone(t1: nat, t2: nat)
    requires 1 <= t1 <= t2
    ensures WorkForTarget(t2).value <= WorkForTarget(t1).value
  {
    var w := WorkForTarget(t2).value;
    if w >= 1 {
      WorkTargetGalois(t2, w);
      WorkTargetGalois(t1, w);
    }
  }

  /** Every target below 2^256 is worth at least one unit of work. */
  lemma WorkIsPositive(t: nat)
    requires 1 <= t < TWO_256
    ensures 1 <= WorkForTarget(t).value <= TWO_256 / 2
  {
    QuotientAtLeast(TWO_256, t + 1, 1);
    QuotientAtLeast(TWO_256, t + 1, TWO_256 / 2 + 1);
    assert (TWO_256 / 2 + 1) * (t + 1) >= (TWO_256 / 2 + 1) * 2;
  }

  /** Going from a target to its work, back to a target and to work again changes nothing. */
  lemma WorkOfTargetOfWork(t: nat)
    requires 1 <= t < TWO_256
    ensures var w := WorkForTarget(t).value;
      && TargetForWork(w).Ok?
      && t <= TargetForWork(w).value
      && WorkForTarget(TargetForWork(w).value) == Ok(w)
  {
    WorkIsPositive(t);
    var w := WorkForTarget(t).value;
    WorkTargetGalois(t, w);
    var t2 := TargetForWork(w).value;
    WorkTargetGalois(t2, w);
    WorkIsAntitone(t, t2);
  }

  /** The target for some work is nonzero exactly up to 2^255, and zero or an error above. */
  lemma TargetForWorkRange(work: nat)
    requires work >= 1
    ensures TargetForWork(work).Ok? <==> work <= TWO_256
    ensures TargetForWork(work).Ok? && TargetForWork(work).value > 0 <==> work <= TWO_256 / 2
    ensures TargetForWork(work).Ok? ==> TargetForWork(work).value < TWO_256
  {
    QuotientAtLeast(TWO_256, work, 1);
    QuotientAtLeast(TWO_256, work, 2);
  }

  // ---------------------------------------------------------------- verification

  /** The 32 target bytes that a hash is compared with. */
  function TargetBytes(bits: u32): Result<seq<byte>, PowError> {
    var e, m := Exponent(bits), Mantissa(bits);
    if SignFlagged(bits) then Err(NegativeTarget)
    else if m == 0 then Err(ZeroTarget)
    else if e > 32 then
      var target :- DecodeCompact(bits);
      Ok(ToBigEndian(target, 32))
    else if e <= 3 then Ok(Zeros(28) + ToBigEndian(m / Pow256(3 - e), 4))
    else Ok(Zeros(32 - e) + ToBigEndian(m, 3) + Zeros(e - 3))
  }

  method TargetBytesFromCompact(bits: u32) returns (r: Result<seq<byte>, PowError>)
    ensures r == TargetBytes(bits)
  {
    hide Pow256, ToBigEndian, DecodeCompact;
    if bits / 0x80_0000 % 2 == 1 {
      return Err(NegativeTarget);
    }
    var exponent, mantissa := bits / 0x100_0000, bits % 0x80_0000;
    if mantissa == 0 {
      return Err(ZeroTarget);
    }
    if exponent > 32 {
      var target := CompactToTarget(bits);
      return match target case Ok(t) => Ok(ToBigEndian(t, 32)) case Err(e) => Err(e);
    }
    var out := new byte[32](_ => 0);
    if exponent <= 3 {
      var target := mantissa / Pow256(3 - exponent);
      var bytes := ToBigEndian(target, 4);
      out[28], out[29], out[30], out[31] := bytes[0], bytes[1], bytes[2], bytes[3];
      assert out[..] == Zeros(28) + bytes;
    } else {
      var offset := 32 - exponent;
      var bytes := ToBigEndian(mantissa, 3);
      ThreeBytes(mantissa);
      out[offset] := mantissa / 0x1_0000;
      out[offset + 1] := mantissa / 0x100 % 0x100;
      out[offset + 2] := mantissa % 0x100;
      assert out[..] == Zeros(offset) + bytes + Zeros(exponent - 3);
    }
    return Ok(out[..]);
  }

  lemma ThreeBytes(m: nat)
    requires m < 0x100_0000
    ensures ToBigEndian(m, 3) == [m / 0x1_0000, m / 0x100 % 0x100, m % 0x100]
  {
    assert ToBigEndian(m, 3) == ToBigEndian(m / 256, 2) + [m % 256];
    assert ToBigEndian(m / 256, 2) == ToBigEndian(m / 256 / 256, 1) + [m / 256 % 256];
    assert ToBigEndian(m / 256 / 256, 1) == [] + [m / 256 / 256 % 256];
    assert m / 256 / 256 == m / 0x1_0000;
  }

  /** The bytes spell the shifted mantissa, in every exponent branch. */
  lemma TargetBytesValue(bits: u32)
    requires TargetBytes(bits).Ok?
    ensures |TargetBytes(bits).value| == 32
    ensures BigEndian(TargetBytes(bits).value) == Shifted(Mantissa(bits), Exponent(bits))
  {
    var e, m := Exponent(bits), Mantissa(bits);
    if e > 32 {
      TwoTo256();
      ToBigEndianValue(DecodeCompact(bits).value, 32);
    } else if e <= 3 {
      hide Pow256, BigEndian, ToBigEndian;
      QuotientAtMost(m, Pow256(3 - e));
      PaddedBytes(28, m / Pow256(3 - e), 4, 0);
      assert Zeros(28) + ToBigEndian(m / Pow256(3 - e), 4) + Zeros(0) == TargetBytes(bits).value;
    } else {
      hide Pow256, BigEndian, ToBigEndian;
      PaddedBytes(32 - e, m, 3, e - 3);
    }
  }

  /** Zero bytes before a number do not count; each zero byte after it multiplies by 256. */
  lemma PaddedBytes(before: nat, v: nat, n: nat, after: nat)
    requires n >= 3 && v < 0x100_0000
    ensures BigEndian(Zeros(before) + ToBigEndian(v, n) + Zeros(after)) == v * Pow256(after)
    ensures Pow256(0) == 1
  {
    assert v < Pow256(n) by {
      Pow256Monotone(3, n);
      assert Pow256(3) == 0x100_0000;
    }
    hide Pow256, BigEndian, ToBigEndian;
    ToBigEndianValue(v, n);
    BigEndianZeros(before);
    BigEndianZeros(after);
    BigEndianConcat(Zeros(before), ToBigEndian(v, n));
    BigEndianConcat(Zeros(before) + ToBigEndian(v, n), Zeros(after));
    assert Pow256(0) == 1 by { PowZero(); }
  }

  lemma PowZero()
    ensures Pow256(0) == 1
  {
  }

  function VerifyPow(hash: Hash, bits: u32): Result<bool, PowError> {
    var target :- TargetBytes(bits);
    Ok(CompareBytes(hash, target) != Greater)
  }

  /**
   * The byte comparison is the big-integer comparison: for every 32-bit value it gives the hash
   * at most the shifted mantissa, and it fails exactly on a sign flag, an empty mantissa or a
   * target above 256 bits.
   */
  lemma VerifyPowRefines(hash: Hash, bits: u32)
    ensures VerifyPow(hash, bits) ==
      if SignFlagged(bits) then Err(NegativeTarget)
      else if Mantissa(bits) == 0 then Err(ZeroTarget)
      else if Shifted(Mantissa(bits), Exponent(bits)) >= TWO_256 then Err(Overflow)
      else Ok(BigEndian(hash) <= Shifted(Mantissa(bits), Exponent(bits)))
  {
    if TargetBytes(bits).Ok? {
      TargetBytesValue(bits);
      CompareBytesNumeric(hash, TargetBytes(bits).value);
      BigEndianBound(TargetBytes(bits).value);
      TwoTo256();
    } else if !SignFlagged(bits) && Mantissa(bits) != 0 {
      assert Mantissa(bits) * Pow256(Exponent(bits) - 3) >= 1 * 1;
    }
  }

  /** Whenever the compact bits decode, verification is the comparison with the decoded target. */
  lemma VerifyPowDecoded(hash: Hash, bits: u32)
    requires DecodeCompact(bits).Ok?
    ensures VerifyPow(hash, bits) == Ok(BigEndian(hash) <= DecodeCompact(bits).value)
  {
    VerifyPowRefines(hash, bits);
    ShiftedZero(Exponent(bits));
  }

  /** Bits whose mantissa shifts out to zero do not decode, yet they verify: for the zero hash alone. */
  lemma VerifyPowUnderflow(hash: Hash, bits: u32)
    requires !SignFlagged(bits) && Mantissa(bits) > 0 && Shifted(Mantissa(bits), Exponent(bits)) == 0
    ensures DecodeCompact(bits) == Err(ZeroTarget)
    ensures VerifyPow(hash, bits) == Ok(hash == Zeros(32))
  {
    VerifyPowRefines(hash, bits);
    BigEndianZeros(32);
    BigEndianInverse(hash);
    BigEndianInverse(Zeros(32));
  }
}
