/** Shared vocabulary: results, bytes, and big-endian numbers. */
module Prelude {

  datatype Option<+T> = None | Some(value: T)

  datatype Result<+T, +E> = Ok(value: T) | Err(error: E) {
    predicate IsFailure() { Err? }

    function PropagateFailure<U>(): Result<U, E>
      requires Err?
    {
      Err(error)
    }

    function Extract(): T
      requires Ok?
    {
      value
    }
  }

  type byte = x: int | 0 <= x < 0x100
  type u16 = x: int | 0 <= x < 0x1_0000
  type u32 = x: int | 0 <= x < 0x1_0000_0000
  type u64 = x: int | 0 <= x < 0x1_0000_0000_0000_0000

  const U32_MAX: nat := 0xffff_ffff

  /** 256 to the power n. */
  function Pow256(n: nat): (r: nat)
    ensures r >= 1
  {
    if n == 0 then 1 else 256 * Pow256(n - 1)
  }

  lemma {:induction false} Pow256Add(a: nat, b: nat)
    ensures Pow256(a + b) == Pow256(a) * Pow256(b)
  {
    if a > 0 {
      Pow256Add(a - 1, b);
      assert Pow256(a) * Pow256(b) == 256 * (Pow256(a - 1) * Pow256(b));
    } else {
      assert Pow256(0) * Pow256(b) == Pow256(b);
    }
  }

  lemma {:induction false} Pow256Monotone(a: nat, b: nat)
    requires a <= b
    ensures Pow256(a) <= Pow256(b)
    decreases b
  {
    if a < b {
      Pow256Monotone(a, b - 1);
    }
  }

  /** The big-endian value of a byte string. */
  function BigEndian(s: seq<byte>): (r: nat)
  {
    if s == [] then 0 else BigEndian(s[..|s| - 1]) * 256 + s[|s| - 1]
  }

  lemma {:induction false} BigEndianBound(s: seq<byte>)
    ensures BigEndian(s) < Pow256(|s|)
  {
    if s != [] {
      BigEndianBound(s[..|s| - 1]);
    }
  }

  lemma {:induction false} BigEndianConcat(a: seq<byte>, b: seq<byte>)
    ensures BigEndian(a + b) == BigEndian(a) * Pow256(|b|) + BigEndian(b)
    decreases |b|
  {
    if b == [] {
      assert a + b == a;
    } else {
      var front, last := b[..|b| - 1], b[|b| - 1] as nat;
      assert (a + b)[..|a + b| - 1] == a + front;
      BigEndianConcat(a, front);
      var high, low, p := BigEndian(a), BigEndian(front), Pow256(|front|);
      assert BigEndian(a + b) == BigEndian(a + front) * 256 + last;
      AppendDigit(high, low, p, last);
    }
  }

  lemma AppendDigit(high: nat, low: nat, p: nat, last: nat)
    ensures (high * p + low) * 256 + last == high * (256 * p) + (low * 256 + last)
  {
    var product := high * p;
    assert high * (256 * p) == 256 * product;
  }

  /** `s` stands at position i of `message`. */
  predicate At(message: seq<byte>, i: nat, s: seq<byte>) {
    i + |s| <= |message| && message[i..i + |s|] == s
  }

  lemma AtConcat(message: seq<byte>, i: nat, a: seq<byte>, b: seq<byte>)
    ensures At(message, i, a + b) <==> At(message, i, a) && At(message, i + |a|, b)
  {
    if i + |a + b| <= |message| {
      var whole := message[i..i + |a + b|];
      assert whole == message[i..i + |a|] + message[i + |a|..i + |a| + |b|];
      assert At(message, i, a + b) ==> whole[..|a|] == a && whole[|a|..] == b;
    }
  }

  lemma AtWhole(s: seq<byte>)
    ensures At(s, 0, s)
  {
  }

  function Zeros(n: nat): (r: seq<byte>)
    ensures |r| == n && forall i | 0 <= i < n :: r[i] == 0
  {
    seq(n, _ => 0)
  }

  lemma {:induction false} BigEndianZeros(n: nat)
    ensures BigEndian(Zeros(n)) == 0
  {
    if n > 0 {
      assert Zeros(n)[..n - 1] == Zeros(n - 1);
      BigEndianZeros(n - 1);
    }
  }

  /** The n-byte big-endian form of a number. */
  function ToBigEndian(v: nat, n: nat): (r: seq<byte>)
    ensures |r| == n
  {
    if n == 0 then [] else ToBigEndian(v / 256, n - 1) + [v % 256]
  }

  lemma {:induction false} ToBigEndianValue(v: nat, n: nat)
    requires v < Pow256(n)
    ensures BigEndian(ToBigEndian(v, n)) == v
  {
    if n > 0 {
      ToBigEndianValue(v / 256, n - 1);
      assert ToBigEndian(v, n)[..n - 1] == ToBigEndian(v / 256, n - 1);
    }
  }

  lemma {:induction false} BigEndianInverse(s: seq<byte>)
    ensures ToBigEndian(BigEndian(s), |s|) == s
  {
    if s != [] {
      BigEndianInverse(s[..|s| - 1]);
      assert s == s[..|s| - 1] + [s[|s| - 1]];
    }
  }

  datatype Ordering = Less | Equal | Greater

  /** Lexicographic order of byte strings, a proper prefix first. */
  function CompareBytes(a: seq<byte>, b: seq<byte>): Ordering
  {
    if a == [] then (if b == [] then Equal else Less)
    else if b == [] then Greater
    else if a[0] < b[0] then Less
    else if a[0] > b[0] then Greater
    else CompareBytes(a[1..], b[1..])
  }

  lemma {:induction false} CompareBytesEqual(a: seq<byte>, b: seq<byte>)
    ensures CompareBytes(a, b) == Equal <==> a == b
  {
    if a != [] && b != [] && a[0] == b[0] {
      CompareBytesEqual(a[1..], b[1..]);
      assert a == [a[0]] + a[1..] && b == [b[0]] + b[1..];
    }
  }

  lemma {:induction false} CompareBytesAntisymmetric(a: seq<byte>, b: seq<byte>)
    ensures CompareBytes(a, b) == Less <==> CompareBytes(b, a) == Greater
  {
    if a != [] && b != [] && a[0] == b[0] {
      CompareBytesAntisymmetric(a[1..], b[1..]);
    }
  }

  lemma {:induction false} CompareBytesTransitive(a: seq<byte>, b: seq<byte>, c: seq<byte>)
    requires CompareBytes(a, b) == Less && CompareBytes(b, c) == Less
    ensures CompareBytes(a, c) == Less
  {
    if a != [] && a[0] == b[0] == c[0] {
      CompareBytesTransitive(a[1..], b[1..], c[1..]);
    }
  }

  /** Before the other string: a proper prefix of it, or smaller at the first difference. */
  ghost predicate Precedes(a: seq<byte>, b: seq<byte>) {
    exists k: nat :: DiffersAt(a, b, k)
  }

  ghost predicate DiffersAt(a: seq<byte>, b: seq<byte>, k: nat) {
    k < |b| && k <= |a| && a[..k] == b[..k] && (k == |a| || a[k] < b[k])
  }

  lemma {:induction false} CompareBytesIsPrecedence(a: seq<byte>, b: seq<byte>)
    ensures CompareBytes(a, b) == Less <==> Precedes(a, b)
  {
    if a == [] || b == [] || a[0] != b[0] {
      if CompareBytes(a, b) == Less {
        assert DiffersAt(a, b, 0);
      }
    } else {
      CompareBytesIsPrecedence(a[1..], b[1..]);
      if Precedes(a[1..], b[1..]) {
        var k: nat :| DiffersAt(a[1..], b[1..], k);
        assert a[..k + 1] == [a[0]] + a[1..][..k] && b[..k + 1] == [b[0]] + b[1..][..k];
        assert DiffersAt(a, b, k + 1);
      }
      if Precedes(a, b) {
        var k: nat :| DiffersAt(a, b, k);
        assert a[1..][..k - 1] == a[..k][1..] && b[1..][..k - 1] == b[..k][1..];
        assert DiffersAt(a[1..], b[1..], k - 1);
      }
    }
  }

  /** The leading byte counts in units of the strings that can follow it. */
  lemma LeadingByte(a: seq<byte>)
    requires a != []
    ensures BigEndian(a) == a[0] * Pow256(|a| - 1) + BigEndian(a[1..])
    ensures BigEndian(a[1..]) < Pow256(|a| - 1)
  {
    assert a == a[..1] + a[1..];
    assert a[..1][..0] == [];
    assert BigEndian(a[..1]) == BigEndian([]) * 256 + a[0];
    BigEndianConcat(a[..1], a[1..]);
    BigEndianBound(a[1..]);
  }

  lemma DigitsCompare(x: nat, y: nat, p: nat, lowX: nat, lowY: nat)
    requires x < y && lowX < p && lowY < p
    ensures x * p + lowX < y * p + lowY
  {
    assert y * p >= (x + 1) * p == x * p + p;
  }

  /** On strings of one length, lexicographic order is the order of big-endian values. */
  lemma {:induction false} CompareBytesNumeric(a: seq<byte>, b: seq<byte>)
    requires |a| == |b|
    ensures CompareBytes(a, b) == Less <==> BigEndian(a) < BigEndian(b)
    ensures CompareBytes(a, b) == Equal <==> BigEndian(a) == BigEndian(b)
  {
    if a != [] {
      LeadingByte(a);
      LeadingByte(b);
      var p, lowA, lowB := Pow256(|a| - 1), BigEndian(a[1..]), BigEndian(b[1..]);
      if a[0] < b[0] {
        DigitsCompare(a[0], b[0], p, lowA, lowB);
      } else if b[0] < a[0] {
        DigitsCompare(b[0], a[0], p, lowB, lowA);
      } else {
        CompareBytesNumeric(a[1..], b[1..]);
      }
    }
  }
}
