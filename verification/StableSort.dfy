/** The stable sort by time of the median window (rust/crates/hns-chain/src/lib.rs). */
module StableSort {
  import opened Prelude
  import opened HeaderTree

  /** Puts a later element behind all those that are not newer than it. */
  function InsertByTime(s: seq<StoredHeader>, x: StoredHeader): (r: seq<StoredHeader>)
    ensures |r| == |s| + 1
  {
    if s == [] || s[|s| - 1].header.time <= x.header.time then s + [x]
    else InsertByTime(s[..|s| - 1], x) + [s[|s| - 1]]
  }

  function SortedByTime(s: seq<StoredHeader>): (r: seq<StoredHeader>)
    ensures |r| == |s|
  {
    if s == [] then [] else InsertByTime(SortedByTime(s[..|s| - 1]), s[|s| - 1])
  }

  ghost predicate InOrder(s: seq<StoredHeader>) {
    forall i, j | 0 <= i < j < |s| :: s[i].header.time <= s[j].header.time
  }

  /** The elements of one time, in the order in which they stand. */
  function OfTime(s: seq<StoredHeader>, time: nat): seq<StoredHeader> {
    if s == [] then []
    else OfTime(s[..|s| - 1], time) + if s[|s| - 1].header.time == time then [s[|s| - 1]] else []
  }

  lemma {:induction false} InsertBound(s: seq<StoredHeader>, x: StoredHeader, bound: nat)
    requires x.header.time <= bound && forall i | 0 <= i < |s| :: s[i].header.time <= bound
    ensures forall i | 0 <= i < |s| + 1 :: InsertByTime(s, x)[i].header.time <= bound
  {
    if s != [] {
      InsertBound(s[..|s| - 1], x, bound);
    }
  }

  lemma {:induction false} InsertKeepsOrder(s: seq<StoredHeader>, x: StoredHeader)
    requires InOrder(s)
    ensures InOrder(InsertByTime(s, x))
  {
    if s != [] && s[|s| - 1].header.time > x.header.time {
      InsertKeepsOrder(s[..|s| - 1], x);
      InsertBound(s[..|s| - 1], x, s[|s| - 1].header.time);
    }
  }

  lemma {:induction false} InsertIsStable(s: seq<StoredHeader>, x: StoredHeader, time: nat)
    ensures OfTime(InsertByTime(s, x), time) == OfTime(s, time) + if x.header.time == time then [x] else []
  {
    if s != [] && s[|s| - 1].header.time > x.header.time {
      var front, last := s[..|s| - 1], s[|s| - 1];
      InsertIsStable(front, x, time);
      assert (InsertByTime(front, x) + [last])[..|s|] == InsertByTime(front, x);
    } else {
      assert (s + [x])[..|s|] == s;
    }
  }

  /** The sort orders by time and keeps the order of equal times: it is the stable sort. */
  lemma {:induction false} SortIsStable(s: seq<StoredHeader>, time: nat)
    ensures InOrder(SortedByTime(s)) && OfTime(SortedByTime(s), time) == OfTime(s, time)
  {
    if s != [] {
      var front := s[..|s| - 1];
      SortIsStable(front, time);
      InsertKeepsOrder(SortedByTime(front), s[|s| - 1]);
      InsertIsStable(SortedByTime(front), s[|s| - 1], time);
    }
  }

  /** Moves newer elements up until the element at i has its place among the first i. */
  method InsertInPlace(a: array<StoredHeader>, i: nat)
    requires i < a.Length
    modifies a
    ensures a[..i + 1] == InsertByTime(old(a[..i]), old(a[i])) && a[i + 1..] == old(a[i + 1..])
  {
    hide InsertByTime;
    ghost var front, behind := a[..i], a[i + 1..];
    var x := a[i];
    var j := i;
    assert front[..i] == front && front[i..] == [] && InsertByTime(front, x) + [] == InsertByTime(front, x);
    assert a[..] == front + [x] + [] + behind;
    while j > 0 && a[j - 1].header.time > x.header.time
      invariant 0 <= j <= i
      invariant a[..] == front[..j] + [a[j]] + front[j..] + behind
      invariant InsertByTime(front, x) == InsertByTime(front[..j], x) + front[j..]
    {
      ghost var before := a[..];
      ShiftUp(before, front, behind, j);
      InsertBefore(front, x, j);
      a[j] := a[j - 1];
      assert a[..] == before[j := before[j - 1]];
      j := j - 1;
    }
    ghost var before := a[..];
    PutBack(before, front, behind, j, x);
    InsertHere(front, x, j);
    a[j] := x;
    assert a[..] == before[j := x];
    assert a[..i + 1] == a[..][..i + 1] && a[i + 1..] == a[..][i + 1..];
  }

  lemma ShiftUp(s: seq<StoredHeader>, front: seq<StoredHeader>, behind: seq<StoredHeader>, j: nat)
    requires 0 < j <= |front| && |s| == |front| + 1 + |behind| && s == front[..j] + [s[j]] + front[j..] + behind
    ensures s[j - 1] == front[j - 1]
    ensures s[j := s[j - 1]] == front[..j - 1] + [s[j - 1]] + front[j - 1..] + behind
  {
    assert front[..j] == front[..j - 1] + [front[j - 1]] && front[j - 1..] == [front[j - 1]] + front[j..];
  }

  lemma PutBack(s: seq<StoredHeader>, front: seq<StoredHeader>, behind: seq<StoredHeader>, j: nat, x: StoredHeader)
    requires j <= |front| && |s| == |front| + 1 + |behind| && s == front[..j] + [s[j]] + front[j..] + behind
    ensures j > 0 ==> s[j - 1] == front[j - 1]
    ensures s[j := x][..|front| + 1] == front[..j] + [x] + front[j..] && s[j := x][|front| + 1..] == behind
  {
  }

  /** Sorts in place. */
  method SortByTime(a: array<StoredHeader>)
    modifies a
    ensures a[..] == SortedByTime(old(a[..]))
  {
    hide InsertByTime;
    ghost var was := a[..];
    for i := 0 to a.Length
      invariant a[..i] == SortedByTime(was[..i])
      invariant a[i..] == was[i..]
    {
      assert a[i] == a[i..][0] == was[i] && a[i + 1..] == a[i..][1..] == was[i + 1..];
      assert was[..i + 1][..i] == was[..i];
      InsertInPlace(a, i);
    }
    assert was[..a.Length] == was && a[..a.Length] == a[..];
  }

  lemma InsertBefore(front: seq<StoredHeader>, x: StoredHeader, j: nat)
    requires 0 < j <= |front| && front[j - 1].header.time > x.header.time
    ensures InsertByTime(front[..j], x) + front[j..] == InsertByTime(front[..j - 1], x) + front[j - 1..]
  {
    assert front[..j][..j - 1] == front[..j - 1];
    assert front[j - 1..] == [front[j - 1]] + front[j..];
  }

  lemma InsertHere(front: seq<StoredHeader>, x: StoredHeader, j: nat)
    requires j <= |front| && (j == 0 || front[j - 1].header.time <= x.header.time)
    ensures InsertByTime(front[..j], x) + front[j..] == front[..j] + [x] + front[j..]
  {
  }

  lemma InsertIntoTwo(a: StoredHeader, b: StoredHeader, z: StoredHeader)
    requires a.header.time <= b.header.time
    ensures InsertByTime([a, b], z)[1]
      == if z.header.time < a.header.time then a else if z.header.time < b.header.time then z else b
  {
    assert [a, b][..1] == [a] && [a][..0] == [];
  }

  /** The middle of three sorted headers is the median that the specification names. */
  lemma MiddleOfThree(x: StoredHeader, y: StoredHeader, z: StoredHeader)
    ensures SortedByTime([x, y, z])[1] == MedianByTime(x, y, z)
  {
    assert [x, y, z][..2] == [x, y] && [x, y][..1] == [x] && [x][..0] == [];
    assert SortedByTime([x, y]) == InsertByTime([x], y);
    if y.header.time < x.header.time {
      assert InsertByTime([x], y) == [y, x];
      InsertIntoTwo(y, x, z);
    } else {
      assert InsertByTime([x], y) == [x, y];
      InsertIntoTwo(x, y, z);
    }
  }
}
