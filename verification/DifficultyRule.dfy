/**
 * Which bits the mainnet rule demands of a header (rust/crates/hns-chain/src/lib.rs), said from the
 * times and the chainwork on its path alone.
 */
module DifficultyRule {
  import opened Arithmetic
  import opened Prelude
  import opened Pow
  import opened HeaderTree
  import opened ChainInvariant
  import opened Retarget

  /** The middle one of three in order of time, equal times in the order of the chain. */
  ghost predicate IsMedian(w: seq<StoredHeader>, s: StoredHeader) {
    && |w| == 3
    && exists i, j, k :: {i, j, k} == {0, 1, 2} && SortsBefore(w, i, j) && SortsBefore(w, j, k) && s == w[j]
  }

  /** The seconds from one header to another, kept between six hours and four days. */
  ghost predicate IsTimespan(first: StoredHeader, last: StoredHeader, t: nat) {
    var elapsed := last.header.time - first.header.time;
    if elapsed < 21600 then t == 21600 else if elapsed > 345600 then t == 345600 else t == elapsed
  }

  /** The work done in so many seconds, for one block every 600 seconds, rounded down. */
  ghost predicate IsWorkPerBlock(done: nat, t: nat, work: nat) {
    work * t <= done * 600 < (work + 1) * t
  }

  /** The target that is worth this work: 2^256 is at least (target + 1) times the work, and less than one time more. */
  ghost predicate IsTargetOf(work: nat, target: nat) {
    (target + 1) * work <= TWO_256 < (target + 2) * work
  }

  const MAX_TARGET: nat := 0xffff * Pow256(25)

  /** No work, or a target above the limit, demands the limit; else the bits are the target's compact form. */
  ghost predicate IsDemandedFor(work: nat, bits: u32) {
    if work == 0 then bits == 0x1c00ffff
    else exists target: nat :: IsTargetOf(work, target) && target < TWO_256
           && bits == if target > MAX_TARGET then 0x1c00ffff else EncodeCompact(target)
  }

  ghost predicate IsDemanded(first: StoredHeader, last: StoredHeader, bits: u32) {
    && first.chainwork <= last.chainwork
    && exists t: nat, work: nat ::
         IsTimespan(first, last, t) && IsWorkPerBlock(last.chainwork - first.chainwork, t, work) && IsDemandedFor(work, bits)
  }

  /**
   * Up to height 146 the limit is demanded of a child; from then on what the medians of the last
   * three headers and of the three headers 144 earlier say.
   */
  ghost predicate Demands(path: seq<StoredHeader>, bits: u32)
    requires path != []
  {
    var n := |path| - 1;
    if n < 146 then bits == 0x1c00ffff
    else exists first, last ::
           IsMedian(path[n - 146..n - 143], first) && IsMedian(path[n - 2..n + 1], last) && IsDemanded(first, last, bits)
  }

  // ---------------------------------------------------------------- the rule is the one computed

  lemma MedianIff(x: StoredHeader, y: StoredHeader, z: StoredHeader, s: StoredHeader)
    ensures IsMedian([x, y, z], s) <==> s == MedianByTime(x, y, z)
  {
    var w := [x, y, z];
    hide MedianByTime;
    if IsMedian(w, s) {
      var i, j, k :| {i, j, k} == {0, 1, 2} && SortsBefore(w, i, j) && SortsBefore(w, j, k) && s == w[j];
      assert i in {0, 1, 2} && j in {0, 1, 2} && k in {0, 1, 2};
      MedianIsMiddle(x, y, z, i, j, k);
    }
    MedianExists(x, y, z);
  }

  lemma MedianExists(x: StoredHeader, y: StoredHeader, z: StoredHeader)
    ensures IsMedian([x, y, z], MedianByTime(x, y, z))
  {
    var w := [x, y, z];
    var i, j, k := 0, 1, 2;
    if SortsBefore(w, 1, 0) { i, j := 1, 0; }
    if SortsBefore(w, 2, i) { i, j, k := 2, i, j; } else if SortsBefore(w, 2, j) { j, k := 2, j; }
    assert {i, j, k} == {0, 1, 2} && SortsBefore(w, i, j) && SortsBefore(w, j, k);
  }

  lemma TimespanIff(first: StoredHeader, last: StoredHeader, t: nat)
    ensures IsTimespan(first, last, t) <==> t == Timespan(first, last)
  {
  }

  lemma WorkPerBlockIff(done: nat, t: nat, work: nat)
    requires t > 0
    ensures IsWorkPerBlock(done, t, work) <==> work == Quotient(done * 600, t)
  {
    QuotientRemainder(done * 600, t);
    if IsWorkPerBlock(done, t, work) {
      assert (work + 1) * t == work * t + t;
      QuotientUnique(done * 600, t, work);
    }
  }

  lemma TargetOfIff(work: nat, target: nat)
    requires work > 0
    ensures IsTargetOf(work, target) <==> TargetForWork(work) == Ok(target)
  {
    QuotientRemainder(TWO_256, work);
    if IsTargetOf(work, target) {
      assert (target + 2) * work == (target + 1) * work + work;
      QuotientUnique(TWO_256, work, target + 1);
    }
  }

  lemma LimitIs()
    ensures LimitTarget() == Ok(MAX_TARGET)
  {
    LimitDecodes();
    assert Exponent(POW_BITS) == 28 && Mantissa(POW_BITS) == 0xffff;
    hide Pow256;
  }

  lemma DemandedForIff(work: nat, bits: u32)
    ensures IsDemandedFor(work, bits) <==> BitsForWork(work) == Ok(bits)
  {
    LimitIs();
    hide LimitTarget, EncodeCompact;
    if work > 0 {
      TargetForWorkRange(work);
      forall target: nat
        ensures IsTargetOf(work, target) <==> TargetForWork(work) == Ok(target)
      {
        TargetOfIff(work, target);
      }
      hide TargetForWork, IsTargetOf, MAX_TARGET;
    }
  }

  lemma DemandedIff(first: StoredHeader, last: StoredHeader, bits: u32)
    requires first.chainwork <= last.chainwork
    ensures IsDemanded(first, last, bits) <==> BitsForWork(AdjustedWork(first, last)) == Ok(bits)
  {
    var t, work := Timespan(first, last), AdjustedWork(first, last);
    var done := last.chainwork - first.chainwork;
    TimespanIff(first, last, t);
    WorkPerBlockIff(done, t, work);
    DemandedForIff(work, bits);
    if IsDemanded(first, last, bits) {
      var t', work' :| IsTimespan(first, last, t') && IsWorkPerBlock(done, t', work') && IsDemandedFor(work', bits);
      TimespanIff(first, last, t');
      WorkPerBlockIff(done, t', work');
    }
  }

  lemma MedianOfPart(path: seq<StoredHeader>, i: nat, w: seq<StoredHeader>, s: StoredHeader)
    requires i + 3 <= |path| && w == path[i..i + 3]
    ensures IsMedian(w, s) <==> s == MedianByTime(path[i], path[i + 1], path[i + 2])
  {
    hide MedianByTime, IsMedian;
    assert w == [path[i], path[i + 1], path[i + 2]];
    MedianIff(path[i], path[i + 1], path[i + 2], s);
  }

  lemma DemandsIff(path: seq<StoredHeader>, n: nat, bits: u32)
    requires |path| == n + 1 && n >= 146
    ensures Demands(path, bits) <==>
      IsDemanded(MedianByTime(path[n - 146], path[n - 145], path[n - 144]), MedianByTime(path[n - 2], path[n - 1], path[n]), bits)
  {
    hide MedianByTime, IsMedian, IsDemanded;
    var early, late := path[n - 146..n - 143], path[n - 2..n + 1];
    var first, last := MedianByTime(path[n - 146], path[n - 145], path[n - 144]), MedianByTime(path[n - 2], path[n - 1], path[n]);
    forall s
      ensures IsMedian(early, s) <==> s == first
      ensures IsMedian(late, s) <==> s == last
    {
      MedianOfPart(path, n - 146, early, s);
      MedianOfPart(path, n - 2, late, s);
    }
  }

  /** On the path to a parent the bits that the chain computes are exactly the demanded ones. */
  lemma ExpectedBitsIff(net: Network, m: Headers, h: Hash, path: seq<StoredHeader>, bits: u32)
    requires Linked(net, m) && h in m && IsPath(m, path) && path[|path| - 1] == m[h]
    ensures ExpectedBits(m, m[h]) == Ok(bits) <==> Demands(path, bits)
  {
    ChainToIsPath(net, m, h);
    PathIsUnique(m, path, ChainTo(m, m[h]).value);
    var n := |path| - 1;
    hide Linked, IsPath, ChainTo;
    if n >= 146 {
      RetargetIsTotal(net, m, h, path, n);
      DemandsIff(path, n, bits);
      hide ExpectedBits, MedianByTime, IsDemanded, BitsForWork, AdjustedWork, Demands;
      DemandedIff(MedianByTime(path[n - 146], path[n - 145], path[n - 144]), MedianByTime(path[n - 2], path[n - 1], path[n]), bits);
    }
  }
}
