/**
 * The 144-block difficulty retarget: total on well-formed chains, and what bits it demands.
 */
module Retarget {
  import opened Arithmetic
  import opened Prelude
  import opened Pow
  import opened HeaderTree
  import opened ChainInvariant
  import opened BatchInsertion

  // ---------------------------------------------------------------- reading the path

  lemma PreviousOnPath(m: Headers, path: seq<StoredHeader>, i: nat)
    requires IsPath(m, path) && 0 < i < |path|
    ensures Previous(m, path[i]) == Ok(path[i - 1])
  {
    assert path[i].header.prevBlock == path[i - 1].hash;
  }

  lemma {:induction false} AncestorOnPath(m: Headers, path: seq<StoredHeader>, i: nat, k: nat)
    requires IsPath(m, path) && k <= i < |path|
    ensures Ancestor(m, path[i], k) == Ok(path[k])
    decreases i
  {
    if k < i {
      PreviousOnPath(m, path, i);
      AncestorOnPath(m, path, i - 1, k);
    }
  }

  lemma SuitableOnPath(m: Headers, path: seq<StoredHeader>, i: nat)
    requires IsPath(m, path) && 2 <= i < |path|
    ensures Suitable(m, path[i]) == Ok(MedianByTime(path[i - 2], path[i - 1], path[i]))
  {
    PreviousOnPath(m, path, i);
    PreviousOnPath(m, path, i - 1);
  }

  /** Chainwork grows at every step of a linked chain. */
  lemma WorkGrows(net: Network, m: Headers, path: seq<StoredHeader>)
    requires Linked(net, m) && IsPath(m, path)
    ensures forall i, j | 0 <= i < j < |path| :: path[i].chainwork < path[j].chainwork
  {
    hide WorkFromBits, Linked;
    forall j | 0 < j < |path|
      ensures path[j - 1].chainwork < path[j].chainwork
    {
      ParentOf(net, m, path[j].hash);
      BitsWorkPositive(path[j].header.bits);
      assert path[j].header.prevBlock == path[j - 1].hash;
    }
    StepwiseIncrease(path);
  }

  lemma BitsWorkPositive(bits: u32)
    requires WorkFromBits(bits).Ok?
    ensures WorkFromBits(bits).value >= 1
  {
    WorkIsPositive(DecodeCompact(bits).value);
  }

  // ---------------------------------------------------------------- the median header

  /** Position a comes before position b in a stable sort by time. */
  predicate SortsBefore(s: seq<StoredHeader>, a: nat, b: nat)
    requires a < |s| && b < |s|
  {
    s[a].header.time < s[b].header.time || (s[a].header.time == s[b].header.time && a < b)
  }

  /** The chosen header is the middle one of the stable order, whichever order that is. */
  lemma MedianIsMiddle(x: StoredHeader, y: StoredHeader, z: StoredHeader, first: nat, middle: nat, last: nat)
    requires {first, middle, last} == {0, 1, 2}
    requires SortsBefore([x, y, z], first, middle) && SortsBefore([x, y, z], middle, last)
    ensures MedianByTime(x, y, z) == [x, y, z][middle]
  {
    assert first in {0, 1, 2} && middle in {0, 1, 2} && last in {0, 1, 2};
  }

  // ---------------------------------------------------------------- totality

  /**
   * From parent height 146 up, on every linked chain: both windows and the ancestor exist, the
   * window is not inverted, its work is positive, and so the demanded bits are those for the
   * adjusted work of the two medians.
   */
  lemma RetargetIsTotal(net: Network, m: Headers, h: Hash, path: seq<StoredHeader>, n: nat)
    requires Linked(net, m) && h in m && m[h].height >= BLOCKS_PER_DAY + 2
    requires ChainTo(m, m[h]) == Ok(path) && n == m[h].height
    ensures |path| == n + 1
    ensures var last := MedianByTime(path[n - 2], path[n - 1], path[n]);
      var first := MedianByTime(path[n - 146], path[n - 145], path[n - 144]);
      && first.height < last.height
      && first.chainwork < last.chainwork
      && ExpectedBits(m, m[h]) == BitsForWork(AdjustedWork(first, last))
  {
    hide WorkFromBits, Linked, IsPath, BitsForWork, AdjustedWork, ChainTo, Suitable, Ancestor;
    ChainToIsPath(net, m, h);
    SuitableOnPath(m, path, n);
    AncestorOnPath(m, path, n, n - 144);
    SuitableOnPath(m, path, n - 144);
    WorkGrows(net, m, path);
    HeightsOnPath(m, path);
  }

  lemma HeightsOnPath(m: Headers, path: seq<StoredHeader>)
    requires IsPath(m, path)
    ensures forall i | 0 <= i < |path| :: path[i].height == i
  {
  }

  // ---------------------------------------------------------------- the demanded bits

  lemma LimitDecodes()
    ensures LimitTarget().Ok? && 0x1_0000 <= LimitTarget().value < TWO_256
  {
    assert Pow256(25) == 0x100_0000_0000_0000_0000_0000_0000_0000_0000_0000_0000_0000_0000 by {
      assert Pow256(8) == 0x1_0000_0000_0000_0000;
      assert Pow256(9) == 0x100_0000_0000_0000_0000;
      Pow256Add(8, 8);
      Pow256Add(9, 16);
    }
  }

  ghost predicate Minable(bits: u32) {
    && DecodeCompact(bits).Ok?
    && LimitTarget().Ok?
    && 1 <= DecodeCompact(bits).value <= LimitTarget().value
  }

  /**
   * Bits are demanded exactly for adjusted work up to 2^256. They decode to a nonzero target no
   * larger than the limit exactly up to 2^255; between the two the demanded bits are 0, which no
   * header can satisfy.
   */
  lemma DemandedBits(work: nat)
    ensures BitsForWork(work).Ok? <==> work <= TWO_256
    ensures BitsForWork(work).Err? ==> BitsForWork(work) == Err(PowFailure(ZeroTarget))
    ensures BitsForWork(work).Ok? && Minable(BitsForWork(work).value) <==> work <= TWO_256 / 2
    ensures TWO_256 / 2 < work <= TWO_256 ==> BitsForWork(work) == Ok(0)
  {
    LimitDecodes();
    if work > 0 {
      hide Pow256;
      TargetForWorkRange(work);
      if work <= TWO_256 {
        var target := TargetForWork(work).value;
        if target == 0 {
          hide TargetForWork, EncodeCompact;
          ZeroTargetBits(target);
        } else {
          hide TargetForWork, DecodeCompact, EncodeCompact;
          CompactRoundsDown(target);
        }
      }
    }
  }

  lemma ZeroTargetBits(target: u32)
    requires target == 0
    ensures EncodeCompact(target) == 0 && DecodeCompact(target).Err?
  {
    hide Shifted, ByteLength, TopBytes;
    ShiftedZero(Exponent(target));
  }

  /** More work in the window never makes the demanded target larger. */
  lemma MoreWorkIsHarder(w1: nat, w2: nat)
    requires w1 <= w2 <= TWO_256 / 2
    ensures BitsForWork(w1).Ok? && BitsForWork(w2).Ok?
    ensures Minable(BitsForWork(w1).value) && Minable(BitsForWork(w2).value)
    ensures DecodeCompact(BitsForWork(w2).value).value <= DecodeCompact(BitsForWork(w1).value).value
  {
    DemandedBits(w1);
    DemandedBits(w2);
    if w1 > 0 {
      TargetsOrdered(w1, w2);
      LimitDecodes();
      hide TargetForWork, DecodeCompact, EncodeCompact, Pow256;
      var t1, t2 := TargetForWork(w1).value, TargetForWork(w2).value;
      if t1 <= LimitTarget().value {
        CompactRoundsDown(t2);
        CompactIsLargestBelow(t1, EncodeCompact(t2));
      }
    }
  }

  lemma TargetsOrdered(w1: nat, w2: nat)
    requires 1 <= w1 <= w2 <= TWO_256 / 2
    ensures TargetForWork(w1).Ok? && TargetForWork(w2).Ok?
    ensures 1 <= TargetForWork(w2).value <= TargetForWork(w1).value < TWO_256
  {
    TargetForWorkRange(w1);
    TargetForWorkRange(w2);
    WorkTargetGalois(TargetForWork(w2).value, w2);
    WorkTargetGalois(TargetForWork(w2).value, w1);
  }

  /** The retarget on a linked chain has one way to fail: adjusted work above 2^256. */
  lemma RetargetFailsOnlyOnItsTarget(net: Network, m: Headers, h: Hash)
    requires Linked(net, m) && h in m && m[h].height >= BLOCKS_PER_DAY + 2
    ensures ExpectedBits(m, m[h]).Ok? || ExpectedBits(m, m[h]) == Err(PowFailure(ZeroTarget))
  {
    hide ExpectedBits, AdjustedWork, BitsForWork, Linked, MedianByTime;
    ChainToIsPath(net, m, h);
    var path, n := ChainTo(m, m[h]).value, m[h].height;
    RetargetIsTotal(net, m, h, path, n);
    DemandedBits(AdjustedWork(MedianByTime(path[n - 146], path[n - 145], path[n - 144]),
                              MedianByTime(path[n - 2], path[n - 1], path[n])));
  }
}
