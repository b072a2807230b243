/**
 * Unpadded base32hex (section 7 of RFC 4648): the streaming encoder of
 * rust/crates/hns-core/src/resource.rs and the streaming decoder of rust/crates/hns-dnssec/src/lib.rs.
 * Both keep a 32-bit accumulator that loses its high bits on every long input.
 *
 * The specification has no accumulator: the input is one big number, shifted to a whole number of
 * digits, written in base 32.
 */
module Base32Hex {
  import opened Arithmetic
  import opened Prelude

  type digit = d: int | 0 <= d < 32

  function Pow2(n: nat): (r: nat)
    ensures r >= 1
  {
    if n == 0 then 1 else 2 * Pow2(n - 1)
  }

  function Value32(ds: seq<digit>): nat {
    if ds == [] then 0 else Value32(ds[..|ds| - 1]) * 32 + ds[|ds| - 1]
  }

  function Digits32(v: nat, n: nat): (r: seq<digit>)
    ensures |r| == n
  {
    if n == 0 then [] else Digits32(v / 32, n - 1) + [v % 32]
  }

  lemma {:induction false} DigitsOfValue(ds: seq<digit>)
    ensures Digits32(Value32(ds), |ds|) == ds
  {
    if ds != [] {
      DigitsOfValue(ds[..|ds| - 1]);
      assert ds == ds[..|ds| - 1] + [ds[|ds| - 1]];
    }
  }

  lemma {:induction false} ValueOfDigits(v: nat, n: nat)
    requires v < Pow2(5 * n)
    ensures Value32(Digits32(v, n)) == v
  {
    if n > 0 {
      FiveBits(n - 1);
      ValueOfDigits(v / 32, n - 1);
      assert Digits32(v, n)[..n - 1] == Digits32(v / 32, n - 1);
    }
  }

  lemma FiveBits(n: nat)
    ensures Pow2(5 * (n + 1)) == 32 * Pow2(5 * n)
  {
    var k := 5 * n;
    assert Pow2(k + 5) == 2 * Pow2(k + 4) && Pow2(k + 3) == 2 * Pow2(k + 2) && Pow2(k + 1) == 2 * Pow2(k);
  }

  lemma EightBits(n: nat)
    ensures Pow2(8 * (n + 1)) == 256 * Pow2(8 * n)
  {
    var k := 8 * n;
    assert Pow2(k + 8) == 2 * Pow2(k + 7) && Pow2(k + 6) == 2 * Pow2(k + 5);
    assert Pow2(k + 4) == 2 * Pow2(k + 3) && Pow2(k + 2) == 2 * Pow2(k + 1);
  }

  lemma {:induction false} BytesAsBits(s: seq<byte>)
    ensures BigEndian(s) < Pow2(8 * |s|)
  {
    if s != [] {
      EightBits(|s| - 1);
      BytesAsBits(s[..|s| - 1]);
    }
  }

  // ---------------------------------------------------------------- specification

  function DigitChar(d: digit): byte {
    if d < 10 then 0x30 + d else 0x61 + (d - 10)
  }

  function CharDigit(c: byte): Option<digit> {
    if 0x30 <= c <= 0x39 then Some(c - 0x30)
    else if 0x61 <= c <= 0x76 then Some(c - 0x61 + 10)
    else if 0x41 <= c <= 0x56 then Some(c - 0x41 + 10)
    else None
  }

  function Chars(ds: seq<digit>): (r: seq<byte>)
    ensures |r| == |ds| && forall i | 0 <= i < |ds| :: r[i] == DigitChar(ds[i])
  {
    seq(|ds|, i requires 0 <= i < |ds| => DigitChar(ds[i]))
  }

  predicate AllDigits(text: seq<byte>) {
    forall i | 0 <= i < |text| :: CharDigit(text[i]).Some?
  }

  function DigitsOf(text: seq<byte>): (r: seq<digit>)
    requires AllDigits(text)
    ensures |r| == |text| && forall i | 0 <= i < |text| :: r[i] == CharDigit(text[i]).value
  {
    seq(|text|, i requires 0 <= i < |text| => CharDigit(text[i]).value)
  }

  /** Digits needed for n bytes: 8n/5 rounded up. */
  function EncodedLength(n: nat): nat { (8 * n + 4) / 5 }

  function Encode(input: seq<byte>): (r: seq<byte>)
    ensures |r| == EncodedLength(|input|)
  {
    var m := EncodedLength(|input|);
    Chars(Digits32(BigEndian(input) * Pow2(5 * m - 8 * |input|), m))
  }

  /** Whole bytes are kept; the bits left over must be zero. */
  function Decode(text: seq<byte>): Option<seq<byte>> {
    if !AllDigits(text) then None
    else
      var v, k := Value32(DigitsOf(text)), 5 * |text| / 8;
      var spare := Pow2(5 * |text| - 8 * k);
      if Remainder(v, spare) != 0 then None else Some(ToBigEndian(Quotient(v, spare), k))
  }

  // ---------------------------------------------------------------- the streaming forms

  const WORD: nat := 0x1_0000_0000

  /** What a 32-bit accumulator keeps. */
  function InWord(v: nat): nat { v % WORD }

  /** Reading a window of the accumulator: the digits that it lost do not matter. */
  lemma ReadWindow(v: nat, high: nat, low: nat, base: nat, above: nat)
    requires base >= 1 && low >= 1 && above * base * low == WORD && high == base * low
    ensures v % WORD / low % base == v / low % base
    ensures v / high * base + v / low % base == v / low
  {
    SplitDigit(v, base, low);
    var q, w := v / WORD, v % WORD;
    assert v == q * (above * base * low) + w;
    assert q * (above * base * low) == q * above * base * low by {
      Regroup(q, above, base, low);
    }
    WindowInWord(q * above, w, base, low);
  }

  lemma Regroup(q: nat, a: nat, b: nat, c: nat)
    ensures q * (a * b * c) == q * a * b * c
  {
    assert q * (a * b * c) == q * (a * b) * c;
    assert q * (a * b) == q * a * b;
  }

  lemma Powers()
    ensures Pow2(0) == 1 && Pow2(1) == 2 && Pow2(2) == 4 && Pow2(3) == 8 && Pow2(4) == 16
    ensures Pow2(5) == 32 && Pow2(6) == 64 && Pow2(7) == 128 && Pow2(8) == 256 && Pow2(9) == 512
    ensures Pow2(10) == 1024 && Pow2(11) == 2048 && Pow2(12) == 4096
  {
  }

  lemma EncoderStep(v: nat, bits: nat)
    requires 5 <= bits <= 12
    ensures Quotient(v, Pow2(bits)) * 32 + Quotient(InWord(v), Pow2(bits - 5)) % 32 == Quotient(v, Pow2(bits - 5))
  {
    Powers();
    hide Pow2;
    var low := Pow2(bits - 5);
    assert low in {1, 2, 4, 8, 16, 32, 64, 128} && Pow2(bits) == 32 * low;
    var above := match low case 1 => 0x800_0000 case 2 => 0x400_0000 case 4 => 0x200_0000 case 8 => 0x100_0000
                 case 16 => 0x80_0000 case 32 => 0x40_0000 case 64 => 0x20_0000 case _ => 0x10_0000;
    assert above * 32 * low == WORD;
    ReadWindow(v, Pow2(bits), low, 32, above);
  }

  lemma DecoderStep(v: nat, bits: nat)
    requires bits <= 4
    ensures Quotient(v, Pow2(bits + 8)) * 256 + Quotient(InWord(v), Pow2(bits)) % 256 == Quotient(v, Pow2(bits))
  {
    Powers();
    hide Pow2;
    var low := Pow2(bits);
    assert low in {1, 2, 4, 8, 16} && Pow2(bits + 8) == 256 * low;
    var above := match low case 1 => 0x100_0000 case 2 => 0x80_0000 case 4 => 0x40_0000 case 8 => 0x20_0000
                 case _ => 0x10_0000;
    assert above * 256 * low == WORD;
    ReadWindow(v, Pow2(bits + 8), low, 256, above);
  }

  /** Appending a byte or a digit to the word appends it to the low bits of the whole number. */
  lemma AppendInWord(v: nat, base: nat, d: nat)
    requires base >= 1
    ensures InWord(InWord(v) * base + d) == InWord(v * base + d)
  {
    var q, w := v / WORD, v % WORD;
    assert v == q * WORD + w;
    assert v * base + d == (q * base) * WORD + (w * base + d) by {
      assert (q * WORD + w) * base == (q * base) * WORD + w * base;
    }
    RemainderShift(q * base, WORD, w * base + d);
  }

  /** Bits that come in below the unread ones leave the digits already read alone. */
  lemma AppendKeepsHigh(v: nat, d: nat, base: nat, unit: nat)
    requires d < base && unit >= 1
    ensures base * unit >= 1 && Quotient(v * base + d, base * unit) == Quotient(v, unit)
  {
    QuotientRemainder(v, unit);
    var q := v / unit;
    MulMonotone(1, base, unit);
    assert q * (base * unit) == q * unit * base;
    MulMonotone(q * unit, v, base);
    MulStrict(v, q * unit + unit, base);
    assert (q * unit + unit) * base == q * unit * base + base * unit;
    QuotientUnique(v * base + d, base * unit, q);
  }

  lemma {:induction false} Pow2Add(a: nat, b: nat)
    ensures Pow2(a + b) == Pow2(a) * Pow2(b)
  {
    if a > 0 {
      Pow2Add(a - 1, b);
      assert 2 * (Pow2(a - 1) * Pow2(b)) == 2 * Pow2(a - 1) * Pow2(b);
    } else {
      assert Pow2(0) * Pow2(b) == Pow2(b);
    }
  }

  method EncodeStreaming(input: seq<byte>) returns (out: seq<byte>)
    ensures out == Encode(input)
  {
    hide Pow2, Value32, BigEndian, Digits32, Quotient, InWord;
    out := [];
    ghost var digits: seq<digit> := [];
    var buffer, bits: nat := 0, 0;
    ghost var v: nat := 0;
    StreamStart();
    for i := 0 to |input|
      invariant bits <= 4 && bits + 5 * |digits| == 8 * i
      invariant v == BigEndian(input[..i]) && buffer == InWord(v)
      invariant out == Chars(digits) && Value32(digits) == Quotient(v, Pow2(bits))
    {
      AppendInWord(v, 256, input[i]);
      AppendKeepsHigh(v, input[i], 256, Pow2(bits));
      TakeByte(input, i, bits);
      buffer := InWord(buffer * 256 + input[i]);
      v := v * 256 + input[i];
      bits := bits + 8;
      while bits >= 5
        invariant bits <= 12 && bits + 5 * |digits| == 8 * (i + 1)
        invariant out == Chars(digits) && Value32(digits) == Quotient(v, Pow2(bits))
      {
        EncoderStep(v, bits);
        var index := Quotient(buffer, Pow2(bits - 5)) % 32;
        PushDigit(digits, index);
        digits := digits + [index];
        out := out + [DigitChar(index)];
        bits := bits - 5;
      }
    }
    assert input[..|input|] == input;
    var m := EncodedLength(|input|);
    if bits > 0 {
      LastDigit(v, bits);
      var index := buffer * Pow2(5 - bits) % 32;
      PushDigit(digits, index);
      digits := digits + [index];
      out := out + [DigitChar(index)];
    } else {
      NoLastDigit(v);
    }
    DigitsOfValue(digits);
  }

  lemma StreamStart()
    ensures BigEndian([]) == 0 && Value32([]) == 0 && Pow2(0) == 1 && Quotient(0, Pow2(0)) == 0 && InWord(0) == 0
  {
  }

  lemma TakeByte(input: seq<byte>, i: nat, bits: nat)
    requires i < |input|
    ensures BigEndian(input[..i + 1]) == BigEndian(input[..i]) * 256 + input[i]
    ensures Pow2(bits + 8) == 256 * Pow2(bits)
  {
    assert input[..i + 1][..i] == input[..i];
    Pow2Add(8, bits);
    Powers();
  }

  lemma PushDigit(digits: seq<digit>, d: digit)
    ensures Value32(digits + [d]) == Value32(digits) * 32 + d
  {
    assert (digits + [d])[..|digits|] == digits;
  }

  /** The closing digit: the unread bits, moved up to fill it. */
  lemma LastDigit(v: nat, bits: nat)
    requires 1 <= bits <= 4
    ensures Quotient(v, Pow2(bits)) * 32 + InWord(v) * Pow2(5 - bits) % 32 == v * Pow2(5 - bits)
  {
    Powers();
    hide Pow2;
    assert Pow2(5 - bits) * Pow2(bits) == 32;
    FillDigit(v, Pow2(5 - bits), Pow2(bits));
  }

  lemma FillDigit(v: nat, up: nat, low: nat)
    requires up * low == 32 && low >= 1
    ensures v / low * 32 + v % WORD * up % 32 == v * up
  {
    FillFromWord(v, up);
    FillLow(v / low, v % low, up, low);
    assert v == low * (v / low) + v % low;
  }

  lemma FillFromWord(v: nat, up: nat)
    ensures v % WORD * up % 32 == v * up % 32
  {
    var a, w := v / WORD, v % WORD;
    assert v * up == (a * up * 0x800_0000) * 32 + w * up by {
      assert (a * WORD + w) * up == a * up * WORD + w * up;
    }
    RemainderShift(a * up * 0x800_0000, 32, w * up);
  }

  lemma FillLow(q: nat, r: nat, up: nat, low: nat)
    requires up * low == 32 && r < low
    ensures q * 32 + (low * q + r) * up % 32 == (low * q + r) * up
  {
    assert (low * q + r) * up == q * 32 + r * up by { assert low * q * up == q * (up * low); }
    MulStrict(r, low, up);
    assert low * up == 32;
    RemainderShift(q, 32, r * up);
  }

  lemma NoLastDigit(v: nat)
    ensures Quotient(v, Pow2(0)) == v * Pow2(0)
  {
  }

  method DecodeStreaming(text: seq<byte>) returns (r: Option<seq<byte>>)
    ensures r == Decode(text)
  {
    hide Pow2, Value32, BigEndian, ToBigEndian, CharDigit, Quotient, Remainder, AllDigits, DigitsOf, InWord, Decode;
    var out: seq<byte> := [];
    var buffer, bits: nat := 0, 0;
    ghost var digits: seq<digit> := [];
    StreamStart();
    NoDigits();
    for i := 0 to |text|
      invariant AllDigits(text[..i]) && digits == DigitsOf(text[..i])
      invariant bits < 8 && bits + 8 * |out| == 5 * i
      invariant buffer == InWord(Value32(digits))
      invariant BigEndian(out) == Quotient(Value32(digits), Pow2(bits))
    {
      var value := CharDigit(text[i]);
      NextDigit(text, i);
      if value.None? {
        NotDecoded(text);
        return None;
      }
      ghost var v := Value32(digits);
      PushDigit(digits, value.value);
      AppendInWord(v, 32, value.value);
      AppendKeepsHigh(v, value.value, 32, Pow2(bits));
      PowerSteps(bits);
      digits := digits + [value.value];
      buffer := InWord(buffer * 32 + value.value);
      bits := bits + 5;
      if bits >= 8 {
        bits := bits - 8;
        DecoderStep(Value32(digits), bits);
        PushByte(out, Quotient(buffer, Pow2(bits)) % 256);
        out := out + [Quotient(buffer, Pow2(bits)) % 256];
      }
    }
    assert text[..|text|] == text;
    SpareBits(Value32(digits), bits);
    Decoded(text, out, bits);
    if bits > 0 && Remainder(buffer, Pow2(bits)) != 0 {
      return None;
    }
    return Some(out);
  }

  lemma NotDecoded(text: seq<byte>)
    requires !AllDigits(text)
    ensures Decode(text) == None
  {
  }

  lemma WholeBytes(m: nat, k: nat, bits: nat)
    requires bits < 8 && bits + 8 * k == 5 * m
    ensures 5 * m / 8 == k && 5 * m - 8 * k == bits
  {
  }

  lemma Decoded(text: seq<byte>, out: seq<byte>, bits: nat)
    requires AllDigits(text) && bits < 8 && bits + 8 * |out| == 5 * |text|
    requires BigEndian(out) == Quotient(Value32(DigitsOf(text)), Pow2(bits))
    ensures Decode(text) == if Remainder(Value32(DigitsOf(text)), Pow2(bits)) != 0 then None else Some(out)
  {
    hide Pow2, Value32, BigEndian, ToBigEndian, Quotient, Remainder, AllDigits, DigitsOf;
    WholeBytes(|text|, |out|, bits);
    BigEndianInverse(out);
  }

  lemma NoDigits()
    ensures AllDigits([]) && DigitsOf([]) == []
  {
  }

  lemma NextDigit(text: seq<byte>, i: nat)
    requires i < |text| && AllDigits(text[..i])
    ensures CharDigit(text[i]).None? ==> !AllDigits(text)
    ensures CharDigit(text[i]).Some? ==>
      AllDigits(text[..i + 1]) && DigitsOf(text[..i + 1]) == DigitsOf(text[..i]) + [CharDigit(text[i]).value]
  {
    hide CharDigit;
    assert text[..i + 1] == text[..i] + [text[i]];
  }

  lemma PowerSteps(bits: nat)
    ensures Pow2(bits + 5) == 32 * Pow2(bits)
  {
    Pow2Add(5, bits);
    Powers();
  }

  lemma PushByte(out: seq<byte>, b: byte)
    ensures BigEndian(out + [b]) == BigEndian(out) * 256 + b
  {
    assert (out + [b])[..|out|] == out;
  }

  lemma SpareBits(v: nat, bits: nat)
    requires bits < 8
    ensures Remainder(InWord(v), Pow2(bits)) == Remainder(v, Pow2(bits))
    ensures bits == 0 ==> Remainder(v, Pow2(bits)) == 0
  {
    Powers();
    hide Pow2;
    var low := Pow2(bits);
    assert low in {1, 2, 4, 8, 16, 32, 64, 128};
    var above := match low case 1 => WORD case 2 => 0x8000_0000 case 4 => 0x4000_0000 case 8 => 0x2000_0000
                 case 16 => 0x1000_0000 case 32 => 0x800_0000 case 64 => 0x400_0000 case _ => 0x200_0000;
    assert above * low == WORD;
    var q, w := v / WORD, v % WORD;
    assert v == q * (above * low) + w;
    assert q * (above * low) == (q * above) * low;
    RemainderShift(q * above, low, w);
  }

  // ---------------------------------------------------------------- round trip

  lemma CharsDecode(ds: seq<digit>)
    ensures AllDigits(Chars(ds)) && DigitsOf(Chars(ds)) == ds
  {
  }

  /** Decoding inverts encoding on every byte string. */
  lemma DecodeInvertsEncode(input: seq<byte>)
    ensures Decode(Encode(input)) == Some(input)
  {
    hide Pow2, Value32, BigEndian, ToBigEndian, Digits32;
    var n, m := |input|, EncodedLength(|input|);
    var spare := Pow2(5 * m - 8 * n);
    EncodingFits(input);
    ValueOfDigits(BigEndian(input) * spare, m);
    CharsDecode(Digits32(BigEndian(input) * spare, m));
    assert Quotient(BigEndian(input) * spare, spare) == BigEndian(input) && Remainder(BigEndian(input) * spare, spare) == 0 by {
      ProductQuotient(BigEndian(input), spare);
    }
    hide Quotient, Remainder;
    BigEndianInverse(input);
  }

  lemma EncodingFits(input: seq<byte>)
    ensures var m := EncodedLength(|input|);
      5 * m / 8 == |input| && BigEndian(input) * Pow2(5 * m - 8 * |input|) < Pow2(5 * m)
  {
    hide Pow2, BigEndian;
    var spare := 5 * EncodedLength(|input|) - 8 * |input|;
    BytesAsBits(input);
    Pow2Add(8 * |input|, spare);
    MulStrict(BigEndian(input), Pow2(8 * |input|), Pow2(spare));
  }

  lemma EncodeIsInjective(a: seq<byte>, b: seq<byte>)
    requires Encode(a) == Encode(b)
    ensures a == b
  {
    DecodeInvertsEncode(a);
    DecodeInvertsEncode(b);
  }

  predicate IsLowerText(text: seq<byte>) {
    forall i | 0 <= i < |text| :: !(0x41 <= text[i] <= 0x5a)
  }

  /**
   * The decoder takes more than the encoder writes. Encoding a decoded text gives the text back
   * exactly when it has no capitals and one of the lengths that an encoding can have.
   */
  lemma EncodeInvertsDecode(text: seq<byte>)
    requires Decode(text).Some?
    ensures Encode(Decode(text).value) == text <==> IsLowerText(text) && |text| % 8 in {0, 2, 4, 5, 7}
  {
    hide Decode, Encode, Chars, DigitsOf;
    assert AllDigits(text) && |Decode(text).value| == 5 * |text| / 8 by { DecodedShape(text); }
    if |text| % 8 in {0, 2, 4, 5, 7} {
      EncodeOfDecoded(text);
      CanonicalChars(text);
    } else {
      assert |Encode(Decode(text).value)| == EncodedLength(5 * |text| / 8) != |text|;
    }
  }

  lemma DecodedShape(text: seq<byte>)
    requires Decode(text).Some?
    ensures AllDigits(text) && |Decode(text).value| == 5 * |text| / 8
  {
    hide Pow2, Value32, ToBigEndian, Quotient, Remainder;
  }

  lemma EncodeOfDecoded(text: seq<byte>)
    requires Decode(text).Some? && |text| % 8 in {0, 2, 4, 5, 7}
    ensures AllDigits(text) && Encode(Decode(text).value) == Chars(DigitsOf(text))
  {
    hide Pow2, Value32, ToBigEndian, Digits32, BigEndian, Quotient, Remainder;
    var ds, m, k := DigitsOf(text), |text|, 5 * |text| / 8;
    var v, spare := Value32(ds), Pow2(5 * m - 8 * k);
    assert EncodedLength(k) == m;
    DigitsBound(ds);
    Pow2Add(8 * k, 5 * m - 8 * k);
    HighPart(v, spare, Pow2(8 * k));
    Pow256IsPow2(k);
    ToBigEndianValue(Quotient(v, spare), k);
    DigitsOfValue(ds);
  }

  lemma {:induction false} DigitsBound(ds: seq<digit>)
    ensures Value32(ds) < Pow2(5 * |ds|)
  {
    if ds != [] {
      FiveBits(|ds| - 1);
      DigitsBound(ds[..|ds| - 1]);
    }
  }

  lemma HighPart(v: nat, d: nat, high: nat)
    requires d >= 1 && v < high * d
    ensures Quotient(v, d) < high
    ensures Remainder(v, d) == 0 ==> Quotient(v, d) * d == v
  {
    QuotientAtLeast(v, d, high);
    ExactQuotient(v, d);
  }

  lemma {:induction false} Pow256IsPow2(n: nat)
    ensures Pow256(n) == Pow2(8 * n)
  {
    if n > 0 {
      Pow256IsPow2(n - 1);
      EightBits(n - 1);
    }
  }

  lemma CanonicalChars(text: seq<byte>)
    requires AllDigits(text)
    ensures Chars(DigitsOf(text)) == text <==> IsLowerText(text)
  {
    if IsLowerText(text) {
      forall i | 0 <= i < |text|
        ensures Chars(DigitsOf(text))[i] == text[i]
      {
      }
    } else {
      var i :| 0 <= i < |text| && 0x41 <= text[i] <= 0x5a;
      assert Chars(DigitsOf(text))[i] != text[i];
    }
  }

  // ---------------------------------------------------------------- the order of the hashes

  /** Comparing strings that are one octet longer. */
  lemma {:induction false} CompareSnoc(a: seq<byte>, b: seq<byte>, x: byte, y: byte)
    requires |a| == |b|
    ensures CompareBytes(a + [x], b + [y])
      == if CompareBytes(a, b) != Equal then CompareBytes(a, b) else if x < y then Less else if x > y then Greater else Equal
  {
    if a == [] {
      assert a + [x] == [x] && b + [y] == [y] && [x][1..] == [] && [y][1..] == [];
    } else {
      CompareSnoc(a[1..], b[1..], x, y);
      assert (a + [x])[1..] == a[1..] + [x] && (b + [y])[1..] == b[1..] + [y];
    }
  }

  /** The characters of digits compare as the numbers do. */
  lemma {:induction false} CharsCompare(ds: seq<digit>, es: seq<digit>)
    requires |ds| == |es|
    ensures CompareBytes(Chars(ds), Chars(es)) == Less <==> Value32(ds) < Value32(es)
    ensures CompareBytes(Chars(ds), Chars(es)) == Equal <==> Value32(ds) == Value32(es)
  {
    if ds != [] {
      var n := |ds| - 1;
      CharsCompare(ds[..n], es[..n]);
      assert Chars(ds) == Chars(ds[..n]) + [DigitChar(ds[n])] && Chars(es) == Chars(es[..n]) + [DigitChar(es[n])];
      CompareSnoc(Chars(ds[..n]), Chars(es[..n]), DigitChar(ds[n]), DigitChar(es[n]));
      hide CompareBytes;
    }
  }

  lemma ShiftedCompare(a: nat, b: nat, p: nat)
    requires p >= 1
    ensures a < b <==> a * p < b * p
  {
    if a < b {
      assert (a + 1) * p <= b * p;
    } else {
      assert b * p <= a * p;
    }
  }

  /**
   * Encoding keeps the order of strings of one length, over the digits 0 to 9 and then a to v
   * (section 7 of RFC 4648): hashed owner names sort as the hashes do.
   */
  lemma EncodeKeepsOrder(a: seq<byte>, b: seq<byte>)
    requires |a| == |b|
    ensures CompareBytes(Encode(a), Encode(b)) == Less <==> CompareBytes(a, b) == Less
    ensures forall i | 0 <= i < |Encode(a)| :: 0x30 <= Encode(a)[i] <= 0x39 || 0x61 <= Encode(a)[i] <= 0x76
  {
    var p := Pow2(5 * EncodedLength(|a|) - 8 * |a|);
    var ds := EncodingDigits(a, p);
    var es := EncodingDigits(b, p);
    CharsCompare(ds, es);
    CompareBytesNumeric(a, b);
    ShiftedCompare(BigEndian(a), BigEndian(b), p);
    hide *;
    assert forall i | 0 <= i < |ds| :: Encode(a)[i] == DigitChar(ds[i]);
    DigitCharsRange();
  }

  lemma DigitCharsRange()
    ensures forall d: digit :: 0x30 <= DigitChar(d) <= 0x39 || 0x61 <= DigitChar(d) <= 0x76
  {
  }

  lemma EncodingDigits(input: seq<byte>, p: nat) returns (ds: seq<digit>)
    requires p == Pow2(5 * EncodedLength(|input|) - 8 * |input|)
    ensures |ds| == EncodedLength(|input|) && Encode(input) == Chars(ds) && Value32(ds) == BigEndian(input) * p
    ensures forall i | 0 <= i < |ds| :: Encode(input)[i] == DigitChar(ds[i])
  {
    ds := Digits32(BigEndian(input) * p, EncodedLength(|input|));
    EncodingFits(input);
    hide Pow2, BigEndian;
    ValueOfDigits(BigEndian(input) * p, EncodedLength(|input|));
    hide Digits32, Value32;
  }
}
