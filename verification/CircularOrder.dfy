/**
 * Circular intervals over a strict total order, as NSEC and NSEC3 chains use them, and the
 * canonical order of names (section 6.1 of RFC 4034; rust/crates/hns-dnssec/src/lib.rs).
 */
module CircularOrder {
  import opened Prelude
  import opened WireName

  ghost predicate StrictTotalOrder<T(!new)>(less: (T, T) -> bool) {
    && (forall a :: !less(a, a))
    && (forall a, b, c :: less(a, b) && less(b, c) ==> less(a, c))
    && (forall a, b :: a == b || less(a, b) || less(b, a))
  }

  /** Strictly between owner and next, going round the circle; a lone owner covers all the rest. */
  predicate Covers<T(==)>(less: (T, T) -> bool, owner: T, next: T, q: T) {
    && q != owner
    && (if less(owner, next) then less(owner, q) && less(q, next)
        else if less(next, owner) then less(owner, q) || less(q, next)
        else true)
  }

  ghost predicate SortedCircle<T>(less: (T, T) -> bool, owners: seq<T>) {
    owners != [] && forall i, j | 0 <= i < j < |owners| :: less(owners[i], owners[j])
  }

  function NextOwner<T>(owners: seq<T>, i: nat): T
    requires i < |owners|
  {
    if i + 1 < |owners| then owners[i + 1] else owners[0]
  }

  ghost predicate CoveredAt<T>(less: (T, T) -> bool, owners: seq<T>, i: nat, q: T) {
    i < |owners| && Covers(less, owners[i], NextOwner(owners, i), q)
  }

  /** No owner is covered by any record of its circle. */
  lemma OwnersAreUncovered<T(!new)>(less: (T, T) -> bool, owners: seq<T>, i: nat, k: nat)
    requires StrictTotalOrder(less) && SortedCircle(less, owners) && k < |owners|
    ensures !CoveredAt(less, owners, i, owners[k])
  {
    if i < |owners| {
      var next := if i + 1 < |owners| then i + 1 else 0;
      assert i < k ==> less(owners[i], owners[k]);
      assert k < i ==> less(owners[k], owners[i]);
      assert next < k ==> less(owners[next], owners[k]);
      assert k < next ==> less(owners[k], owners[next]);
    }
  }

  /** Anything else is covered by one record. */
  lemma {:induction false} CoveringRecord<T(!new)>(less: (T, T) -> bool, owners: seq<T>, q: T) returns (i: nat)
    requires StrictTotalOrder(less) && SortedCircle(less, owners) && q !in owners
    ensures CoveredAt(less, owners, i, q)
  {
    var n := |owners|;
    if forall k | 0 <= k < n :: less(q, owners[k]) {
      i := n - 1;
      assert less(q, owners[0]);
    } else {
      i := LastBelow(less, owners, q);
      assert owners[i] != q;
      if i + 1 < n {
        assert owners[i + 1] != q && less(q, owners[i + 1]);
      }
    }
  }

  lemma {:induction false} LastBelow<T(!new)>(less: (T, T) -> bool, owners: seq<T>, q: T) returns (i: nat)
    requires StrictTotalOrder(less) && SortedCircle(less, owners) && q !in owners
    requires exists k :: 0 <= k < |owners| && !less(q, owners[k])
    ensures i < |owners| && less(owners[i], q)
    ensures forall k | i < k < |owners| :: less(q, owners[k])
  {
    i := |owners| - 1;
    while !less(owners[i], q)
      invariant i < |owners|
      invariant forall k | i < k < |owners| :: less(q, owners[k])
      decreases i
    {
      assert owners[i] != q;
      assert less(q, owners[i]);
      i := i - 1;
    }
  }

  /** And by no other. */
  lemma CoverIsUnique<T(!new)>(less: (T, T) -> bool, owners: seq<T>, q: T, i: nat, j: nat)
    requires StrictTotalOrder(less) && SortedCircle(less, owners)
    requires CoveredAt(less, owners, i, q) && CoveredAt(less, owners, j, q)
    ensures i == j
  {
    if i < j {
      CoverIsUniqueOrdered(less, owners, q, i, j);
    } else if j < i {
      CoverIsUniqueOrdered(less, owners, q, j, i);
    }
  }

  lemma CoverIsUniqueOrdered<T(!new)>(less: (T, T) -> bool, owners: seq<T>, q: T, i: nat, j: nat)
    requires StrictTotalOrder(less) && SortedCircle(less, owners) && i < j < |owners|
    requires CoveredAt(less, owners, i, q)
    ensures !CoveredAt(less, owners, j, q)
  {
    assert less(owners[i], q) && less(q, owners[i + 1]);
    assert i + 1 == j || less(owners[i + 1], owners[j]);
    assert i == 0 || less(owners[0], owners[i]);
  }

  /** Every point of the order is an owner or covered by exactly one record, never both. */
  lemma CircleCoversOnce<T(!new)>(less: (T, T) -> bool, owners: seq<T>, q: T)
    requires StrictTotalOrder(less) && SortedCircle(less, owners)
    ensures q in owners <==> forall i: nat :: !CoveredAt(less, owners, i, q)
    ensures forall i: nat, j: nat :: CoveredAt(less, owners, i, q) && CoveredAt(less, owners, j, q) ==> i == j
  {
    if q in owners {
      var k :| 0 <= k < |owners| && owners[k] == q;
      forall i: nat
        ensures !CoveredAt(less, owners, i, q)
      {
        OwnersAreUncovered(less, owners, i, k);
      }
    } else {
      var i := CoveringRecord(less, owners, q);
    }
    forall i: nat, j: nat | CoveredAt(less, owners, i, q) && CoveredAt(less, owners, j, q)
      ensures i == j
    {
      CoverIsUnique(less, owners, q, i, j);
    }
  }

  // ---------------------------------------------------------------- bytes

  predicate BytesLess(a: seq<byte>, b: seq<byte>) { CompareBytes(a, b) == Less }

  lemma BytesLessIsStrictTotal()
    ensures StrictTotalOrder(BytesLess)
  {
    forall a: seq<byte>, b: seq<byte>
      ensures !BytesLess(a, a)
      ensures a == b || BytesLess(a, b) || BytesLess(b, a)
    {
      CompareBytesEqual(a, a);
      CompareBytesEqual(a, b);
      CompareBytesAntisymmetric(b, a);
    }
    forall a: seq<byte>, b: seq<byte>, c: seq<byte> | BytesLess(a, b) && BytesLess(b, c)
      ensures BytesLess(a, c)
    {
      CompareBytesTransitive(a, b, c);
    }
  }

  // ---------------------------------------------------------------- names

  /** Labels from the last to the first, each as bytes; a name comes after its ancestors. */
  function CompareNames(a: DnsName, b: DnsName): Ordering {
    if a == [] then (if b == [] then Equal else Less)
    else if b == [] then Greater
    else
      var order := CompareBytes(a[|a| - 1], b[|b| - 1]);
      if order != Equal then order else CompareNames(a[..|a| - 1], b[..|b| - 1])
  }

  predicate NameLess(a: DnsName, b: DnsName) { CompareNames(a, b) == Less }

  /** Canonical order, section 6.1 of RFC 4034: from the root down, the first different label decides; an ancestor comes first. */
  ghost predicate NamePrecedes(a: DnsName, b: DnsName) {
    exists k: nat :: NamesDifferAt(a, b, k)
  }

  ghost predicate NamesDifferAt(a: DnsName, b: DnsName, k: nat) {
    && k < |b| && k <= |a| && a[|a| - k..] == b[|b| - k..]
    && (k == |a| || Precedes(a[|a| - 1 - k], b[|b| - 1 - k]))
  }

  lemma {:induction false} NameLessIsPrecedence(a: DnsName, b: DnsName)
    ensures NameLess(a, b) <==> NamePrecedes(a, b)
    decreases |a|
  {
    if a == [] || b == [] {
      RootPrecedes(a, b);
    } else {
      var x, y, a', b' := a[|a| - 1], b[|b| - 1], a[..|a| - 1], b[..|b| - 1];
      CompareBytesIsPrecedence(x, y);
      CompareBytesEqual(x, y);
      LastLabelDecides(a, b);
      if x == y {
        NameLessIsPrecedence(a', b');
      }
      hide CompareBytes, Precedes, NamePrecedes;
    }
  }

  lemma RootPrecedes(a: DnsName, b: DnsName)
    requires a == [] || b == []
    ensures NamePrecedes(a, b) <==> a == [] && b != []
  {
    if a == [] && b != [] {
      assert NamesDifferAt(a, b, 0);
    }
  }

  lemma LastLabelDecides(a: DnsName, b: DnsName)
    requires a != [] && b != []
    ensures NamePrecedes(a, b) <==>
      Precedes(a[|a| - 1], b[|b| - 1]) || (a[|a| - 1] == b[|b| - 1] && NamePrecedes(a[..|a| - 1], b[..|b| - 1]))
  {
    var a', b' := a[..|a| - 1], b[..|b| - 1];
    hide Precedes;
    if Precedes(a[|a| - 1], b[|b| - 1]) {
      assert NamesDifferAt(a, b, 0);
    }
    if a[|a| - 1] == b[|b| - 1] && NamePrecedes(a', b') {
      var k: nat :| NamesDifferAt(a', b', k);
      OneDeeper(a, b, k);
    }
    if NamePrecedes(a, b) {
      var k: nat :| NamesDifferAt(a, b, k);
      if k > 0 {
        SharedTail(a, b, k);
        assert NamesDifferAt(a', b', k - 1);
      }
    }
  }

  lemma OneDeeper(a: DnsName, b: DnsName, k: nat)
    requires a != [] && b != [] && a[|a| - 1] == b[|b| - 1] && NamesDifferAt(a[..|a| - 1], b[..|b| - 1], k)
    ensures NamesDifferAt(a, b, k + 1)
  {
    hide Precedes;
    var n, m := |a| - 1, |b| - 1;
    TailSnoc(a, n, k);
    TailSnoc(b, m, k);
    if k < n && k < m {
      assert a[..n][n - 1 - k] == a[|a| - 1 - (k + 1)] && b[..m][m - 1 - k] == b[|b| - 1 - (k + 1)];
    }
  }

  lemma TailSnoc(a: DnsName, n: nat, k: nat)
    requires |a| == n + 1 && k <= n
    ensures a[n - k..] == a[..n][n - k..] + [a[n]]
  {
  }

  lemma SharedTail(a: DnsName, b: DnsName, k: nat)
    requires 0 < k <= |a| && k <= |b| && a[|a| - k..] == b[|b| - k..]
    ensures a[|a| - 1] == b[|b| - 1]
    ensures a[..|a| - 1][|a| - k..] == b[..|b| - 1][|b| - k..]
  {
    assert a[|a| - k..][k - 1] == b[|b| - k..][k - 1];
    assert a[..|a| - 1][|a| - k..] == a[|a| - k..][..k - 1];
    assert b[..|b| - 1][|b| - k..] == b[|b| - k..][..k - 1];
  }

  method CanonicalNameCmp(left: DnsName, right: DnsName) returns (r: Ordering)
    ensures r == CompareNames(left, right)
  {
    var i, j := |left|, |right|;
    assert left[..i] == left && right[..j] == right;
    while true
      invariant 0 <= i <= |left| && 0 <= j <= |right|
      invariant CompareNames(left, right) == CompareNames(left[..i], right[..j])
      decreases i
    {
      if i > 0 && j > 0 {
        var order := CompareBytes(left[i - 1], right[j - 1]);
        if order != Equal {
          return order;
        }
        assert left[..i][..i - 1] == left[..i - 1] && right[..j][..j - 1] == right[..j - 1];
        i, j := i - 1, j - 1;
      } else if i == 0 && j > 0 {
        return Less;
      } else if i > 0 {
        return Greater;
      } else {
        return Equal;
      }
    }
  }

  lemma {:induction false} CompareNamesEqual(a: DnsName, b: DnsName)
    ensures CompareNames(a, b) == Equal <==> a == b
  {
    if a != [] && b != [] {
      CompareBytesEqual(a[|a| - 1], b[|b| - 1]);
      CompareNamesEqual(a[..|a| - 1], b[..|b| - 1]);
      assert a == a[..|a| - 1] + [a[|a| - 1]] && b == b[..|b| - 1] + [b[|b| - 1]];
    }
  }

  lemma {:induction false} CompareNamesAntisymmetric(a: DnsName, b: DnsName)
    ensures CompareNames(a, b) == Less <==> CompareNames(b, a) == Greater
  {
    if a != [] && b != [] {
      CompareBytesEqual(a[|a| - 1], b[|b| - 1]);
      CompareBytesEqual(b[|b| - 1], a[|a| - 1]);
      CompareBytesAntisymmetric(a[|a| - 1], b[|b| - 1]);
      CompareNamesAntisymmetric(a[..|a| - 1], b[..|b| - 1]);
    }
  }

  lemma {:induction false} CompareNamesTransitive(a: DnsName, b: DnsName, c: DnsName)
    requires CompareNames(a, b) == Less && CompareNames(b, c) == Less
    ensures CompareNames(a, c) == Less
  {
    if a != [] {
      var x, y, z := a[|a| - 1], b[|b| - 1], c[|c| - 1];
      CompareBytesEqual(x, y);
      CompareBytesEqual(y, z);
      if x == y == z {
        CompareBytesEqual(x, z);
        CompareNamesTransitive(a[..|a| - 1], b[..|b| - 1], c[..|c| - 1]);
      } else if x != y && y != z {
        CompareBytesTransitive(x, y, z);
      }
    }
  }

  /** The canonical name order is a strict total order. */
  lemma NameLessIsStrictTotal()
    ensures StrictTotalOrder(NameLess)
  {
    forall a: DnsName, b: DnsName
      ensures !NameLess(a, a)
      ensures a == b || NameLess(a, b) || NameLess(b, a)
    {
      CompareNamesEqual(a, a);
      CompareNamesEqual(a, b);
      CompareNamesAntisymmetric(b, a);
    }
    forall a: DnsName, b: DnsName, c: DnsName | NameLess(a, b) && NameLess(b, c)
      ensures NameLess(a, c)
    {
      CompareNamesTransitive(a, b, c);
    }
  }

  predicate EndsWith(name: DnsName, parent: DnsName) {
    |name| >= |parent| && name[|name| - |parent|..] == parent
  }

  /**
   * A name and everything below it stand together in the canonical order: a name between the
   * apex of a subtree and a member of it is itself in the subtree.
   */
  lemma {:induction false} SubtreeIsInterval(apex: DnsName, between: DnsName, member: DnsName)
    requires EndsWith(member, apex)
    requires between == apex || NameLess(apex, between)
    requires NameLess(between, member)
    ensures EndsWith(between, apex)
    decreases |apex|
  {
    hide EndsWith, CompareBytes;
    EndsWithParts(between, apex);
    EndsWithParts(member, apex);
    if between != apex && apex != [] {
      var x, y := apex[|apex| - 1], between[|between| - 1];
      CompareBytesEqual(x, y);
      CompareBytesEqual(y, x);
      CompareBytesAntisymmetric(x, y);
      SubtreeIsInterval(apex[..|apex| - 1], between[..|between| - 1], member[..|member| - 1]);
    }
  }

  lemma EndsWithParts(name: DnsName, parent: DnsName)
    ensures EndsWith(name, parent) <==>
      || parent == []
      || (name != [] && name[|name| - 1] == parent[|parent| - 1] && EndsWith(name[..|name| - 1], parent[..|parent| - 1]))
    ensures EndsWith(name, name)
  {
    if parent != [] && |name| >= |parent| {
      var tail := name[|name| - |parent|..];
      assert tail[..|parent| - 1] == name[..|name| - 1][|name| - |parent|..];
      assert tail == tail[..|parent| - 1] + [name[|name| - 1]];
      assert parent == parent[..|parent| - 1] + [parent[|parent| - 1]];
    }
  }

  /** The interval test of an NSEC record, by comparisons alone. */
  function NsecCovers(owner: DnsName, next: DnsName, q: DnsName): bool {
    if q == owner then false
    else match CompareNames(owner, next)
      case Less => CompareNames(owner, q) == Less && CompareNames(q, next) == Less
      case Greater => CompareNames(owner, q) == Less || CompareNames(q, next) == Less
      case Equal => true
  }

  lemma NsecCoversIsCircular(owner: DnsName, next: DnsName, q: DnsName)
    ensures NsecCovers(owner, next, q) == Covers(NameLess, owner, next, q)
  {
    CompareNamesAntisymmetric(next, owner);
  }

  /**
   * On a sorted circular NSEC chain, the wrap-around and the single-record case included, a name
   * is an owner exactly when no record covers it, and at most one record covers it.
   */
  lemma NsecChainCoversOnce(owners: seq<DnsName>, q: DnsName)
    requires SortedCircle(NameLess, owners)
    ensures q in owners <==> forall i | 0 <= i < |owners| :: !NsecCovers(owners[i], NextOwner(owners, i), q)
    ensures forall i, j | 0 <= i < |owners| && 0 <= j < |owners|
      && NsecCovers(owners[i], NextOwner(owners, i), q) && NsecCovers(owners[j], NextOwner(owners, j), q) :: i == j
  {
    NameLessIsStrictTotal();
    CircleCoversOnce(NameLess, owners, q);
    forall i | 0 <= i < |owners|
      ensures NsecCovers(owners[i], NextOwner(owners, i), q) == CoveredAt(NameLess, owners, i, q)
    {
      NsecCoversIsCircular(owners[i], NextOwner(owners, i), q);
    }
  }

  /** The interval test of an NSEC3 record; hashes of another length are never covered. */
  function Nsec3CoversHash(owner: seq<byte>, next: seq<byte>, q: seq<byte>): bool {
    if q == owner || |owner| != |next| || |owner| != |q| then false
    else match CompareBytes(owner, next)
      case Less => CompareBytes(owner, q) == Less && CompareBytes(q, next) == Less
      case Greater => CompareBytes(owner, q) == Less || CompareBytes(q, next) == Less
      case Equal => true
  }

  lemma Nsec3ChainCoversOnce(owners: seq<seq<byte>>, q: seq<byte>)
    requires SortedCircle(BytesLess, owners)
    requires forall i | 0 <= i < |owners| :: |owners[i]| == |q|
    ensures q in owners <==> forall i | 0 <= i < |owners| :: !Nsec3CoversHash(owners[i], NextOwner(owners, i), q)
    ensures forall i, j | 0 <= i < |owners| && 0 <= j < |owners|
      && Nsec3CoversHash(owners[i], NextOwner(owners, i), q) && Nsec3CoversHash(owners[j], NextOwner(owners, j), q) :: i == j
  {
    BytesLessIsStrictTotal();
    CircleCoversOnce(BytesLess, owners, q);
    forall i | 0 <= i < |owners|
      ensures Nsec3CoversHash(owners[i], NextOwner(owners, i), q) == CoveredAt(BytesLess, owners, i, q)
    {
      CompareBytesAntisymmetric(NextOwner(owners, i), owners[i]);
    }
  }
}
