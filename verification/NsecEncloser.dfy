/**
 * The closest encloser in a name error by plain NSEC records: the validator takes it from its
 * caller (rust/crates/hns-dnssec/src/lib.rs), and the covering record says whether it is right.
 */
module NsecEncloser {
  import opened Prelude
  import opened WireName
  import opened WireMessage
  import opened CircularOrder
  import opened Rdata
  import opened Signatures
  import opened Nsec3
  import opened Nsec
  import Nsec3Soundness

  // ---------------------------------------------------------------- common ancestors

  /** The longest common ancestor of two names. */
  function CommonAncestor(a: DnsName, b: DnsName): DnsName {
    if a == [] || b == [] || a[|a| - 1] != b[|b| - 1] then []
    else CommonAncestor(a[..|a| - 1], b[..|b| - 1]) + [a[|a| - 1]]
  }

  lemma {:induction false} CommonAncestorIsLongest(a: DnsName, b: DnsName, s: DnsName)
    ensures EndsWith(a, CommonAncestor(a, b)) && EndsWith(b, CommonAncestor(a, b))
    ensures EndsWith(a, s) && EndsWith(b, s) ==> |s| <= |CommonAncestor(a, b)|
    decreases |a|
  {
    hide EndsWith;
    var c := CommonAncestor(a, b);
    EndsWithParts(a, c);
    EndsWithParts(b, c);
    EndsWithParts(a, s);
    EndsWithParts(b, s);
    if a != [] && b != [] && a[|a| - 1] == b[|b| - 1] {
      CommonAncestorIsLongest(a[..|a| - 1], b[..|b| - 1], if s == [] then [] else s[..|s| - 1]);
      assert c[..|c| - 1] == CommonAncestor(a[..|a| - 1], b[..|b| - 1]);
    }
  }

  /** The longer of the common ancestors of the query with the covering record's two names. */
  function EncloserOf(owner: DnsName, next: DnsName, query: DnsName): DnsName {
    var before, after := CommonAncestor(query, owner), CommonAncestor(query, next);
    if |before| < |after| then after else before
  }

  // ---------------------------------------------------------------- the true closest encloser

  /** The encloser exists and no longer ancestor of the query does, nor the query itself. */
  ghost predicate IsClosestEncloser(z: Zone, query: DnsName, encloser: DnsName) {
    && Exists(z, encloser) && IsStrictSubdomain(query, encloser)
    && forall k | 0 <= k < |query| - |encloser| :: !Exists(z, query[k..])
  }

  /** The owner of the covering record is the last one before the covered name, if any comes before it. */
  lemma OwnerIsNoEarlier(owners: seq<DnsName>, i: nat, query: DnsName, n: DnsName)
    requires SortedCircle(NameLess, owners) && i < |owners| && NsecCovers(owners[i], NextOwner(owners, i), query)
    requires n in owners && NameLess(n, query)
    ensures NameLess(owners[i], query) && (owners[i] == n || NameLess(n, owners[i]))
  {
    NsecCoversIsCircular(owners[i], NextOwner(owners, i), query);
    NameLessIsStrictTotal();
    hide NameLess, NsecCovers;
    var k :| 0 <= k < |owners| && owners[k] == n;
    assert NameLess(owners[k], owners[i]) <==> k < i;
    if i + 1 < |owners| {
      assert NameLess(owners[i], owners[i + 1]);
    } else {
      assert k > 0 ==> NameLess(owners[0], owners[k]);
    }
  }

  /** Whatever exists above a covered name is above one of the covering record's two names too. */
  lemma AncestorsOfCovered(z: Zone, i: nat, query: DnsName, ancestor: DnsName)
    requires ValidZone(z) && i < |z.chain| && NsecCovers(z.chain[i].owner, NextOwner(Owners(z), i), query)
    requires EndsWith(query, ancestor) && Exists(z, ancestor)
    ensures EndsWith(z.chain[i].owner, ancestor) || EndsWith(NextOwner(Owners(z), i), ancestor)
  {
    var owners := Owners(z);
    var n :| n in owners && EndsWith(n, ancestor);
    CoveredIsNoOwner(z, i, query);
    hide EndsWith, NsecCovers, ValidZone;
    assert SortedCircle(NameLess, owners) by { SortedOwners(z); }
    NameLessIsStrictTotal();
    if NameLess(n, query) {
      OwnerIsNoEarlier(owners, i, query, n);
      Between(ancestor, n, owners[i], query);
    } else {
      NextIsNoLater(owners, i, query, n);
      Between(ancestor, query, NextOwner(owners, i), n);
    }
  }

  lemma SortedOwners(z: Zone)
    requires ValidZone(z)
    ensures SortedCircle(NameLess, Owners(z))
  {
  }

  /** A name between two members of a subtree is in the subtree. */
  lemma Between(apex: DnsName, low: DnsName, middle: DnsName, high: DnsName)
    requires EndsWith(low, apex) && EndsWith(high, apex)
    requires (low == middle || NameLess(low, middle)) && (middle == high || NameLess(middle, high))
    ensures EndsWith(middle, apex)
  {
    hide EndsWith, NameLess;
    if low != middle && middle != high {
      NameLessIsStrictTotal();
      if low != apex {
        AncestorComesFirst(low, apex);
      }
      SubtreeIsInterval(apex, middle, high);
    }
  }

  lemma SuffixesOfOne(query: DnsName, a: DnsName, b: DnsName)
    requires EndsWith(query, a) && EndsWith(query, b)
    ensures |a| == |b| ==> a == b
    ensures |a| < |b| ==> b == query[|query| - |b|..] && 0 <= |query| - |b| < |query| - |a|
  {
  }

  /**
   * An encloser of a covered name is the closest one exactly when it is the longer of the common
   * ancestors of the name with the covering record's owner and with its next owner.
   */
  lemma ClosestEncloserIff(z: Zone, i: nat, query: DnsName, encloser: DnsName)
    requires ValidZone(z) && i < |z.chain| && NsecCovers(z.chain[i].owner, NextOwner(Owners(z), i), query)
    requires IsStrictSubdomain(query, encloser)
    ensures IsClosestEncloser(z, query, encloser)
      <==> encloser == EncloserOf(z.chain[i].owner, NextOwner(Owners(z), i), query)
  {
    var owner, next := z.chain[i].owner, NextOwner(Owners(z), i);
    var c := EncloserOf(owner, next, query);
    CommonAncestorIsLongest(query, owner, []);
    CommonAncestorIsLongest(query, next, []);
    assert owner in Owners(z) && next in Owners(z) by {
      assert Owners(z)[i] == owner;
    }
    assert EndsWith(query, c) && Exists(z, c);
    hide NsecCovers, ValidZone, EndsWith;
    forall s: DnsName | EndsWith(query, s) && Exists(z, s)
      ensures |s| <= |c|
    {
      AncestorsOfCovered(z, i, query, s);
      CommonAncestorIsLongest(query, owner, s);
      CommonAncestorIsLongest(query, next, s);
    }
    hide EncloserOf, Exists;
    SuffixesOfOne(query, encloser, c);
    forall k | 0 <= k < |query|
      ensures EndsWith(query, query[k..])
    {
      SuffixEnds(query, k);
    }
  }

  lemma SuffixEnds(query: DnsName, k: nat)
    requires k <= |query|
    ensures EndsWith(query, query[k..])
  {
  }

  // ---------------------------------------------------------------- what a caller can compute

  /** The closest encloser as the covering set itself shows it. */
  function EncloserFrom(rrset: seq<ResourceRecord>, query: DnsName): Option<DnsName> {
    var cover := CoverOf(rrset, query);
    if cover.None? || ParseNsec(cover.value.rdata).Err? then None
    else Some(EncloserOf(cover.value.name, ParseNsec(cover.value.rdata).value.next, query))
  }

  lemma CoverOfFound(z: Zone, rrset: seq<ResourceRecord>, query: DnsName) returns (i: nat)
    requires Truthful(z, rrset) && CoversIn(rrset, query) == Ok(true)
    ensures i < |z.chain| && NsecCovers(z.chain[i].owner, NextOwner(Owners(z), i), query)
    ensures EncloserFrom(rrset, query) == Some(EncloserOf(z.chain[i].owner, NextOwner(Owners(z), i), query))
  {
    hide NsecCovers, StatesEntry, ParseNsec, EncloserOf, CoverOf, CoversIn;
    CoverOfCovers(rrset, query);
    i := EntryOf(z, CoverOf(rrset, query).value);
  }

  /**
   * A Secure name error, exactly: the caller's encloser is the true closest one if and only if it
   * is the one that the covering set shows. Then the name does not exist and the wildcard that
   * could have answered it owns nothing.
   */
  lemma NameErrorIsExact(x: Context, z: Zone, query: DnsName, encloser: DnsName, covering: SignedSet, wildcard: SignedSet)
    requires ValidZone(z) && Truthful(z, covering.records) && Truthful(z, wildcard.records) && WellFormed(query)
    requires ValidateNsecNameError(x, query, encloser, covering, wildcard) == Ok(Secure)
    ensures IsClosestEncloser(z, query, encloser) <==> EncloserFrom(covering.records, query) == Some(encloser)
    ensures EncloserFrom(covering.records, query) == Some(encloser) ==>
      !Exists(z, query) && query !in Owners(z) && [WILDCARD] + encloser !in Owners(z)
  {
    var j := NameErrorIsSound(x, z, query, encloser, covering, wildcard);
    hide ValidZone, Truthful, Accept, CoversIn, NsecCovers, WildcardChild, WellFormed, Exists, EncloserFrom, EncloserOf, EndsWith;
    var i := CoverOfFound(z, covering.records, query);
    ClosestEncloserIff(z, i, query, encloser);
    if IsClosestEncloser(z, query, encloser) {
      assert query[0..] == query;
    }
  }

  /** Every name that owns nothing has a record that covers it. */
  lemma EvidenceExists(z: Zone, name: DnsName) returns (i: nat)
    requires ValidZone(z) && name !in Owners(z)
    ensures i < |z.chain| && NsecCovers(z.chain[i].owner, NextOwner(Owners(z), i), name)
  {
    hide NsecCovers;
    NsecChainCoversOnce(Owners(z), name);
    i :| 0 <= i < |Owners(z)| && NsecCovers(Owners(z)[i], NextOwner(Owners(z), i), name);
  }
}
