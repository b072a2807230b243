/**
 * What every run of insertions keeps: heights and chainwork follow from the stored parent, the
 * best header has maximal chainwork, and the height index is exactly the path from genesis to it.
 */
module ChainInvariant {
  import opened Prelude
  import opened Pow
  import opened HeaderTree

  /** A stored header is filed under its hash and continues its stored parent. */
  ghost predicate LinkedAt(net: Network, m: Headers, h: Hash)
    requires h in m
  {
    var s := m[h];
    && s.hash == h == net.hashOf(s.header)
    && WorkFromBits(s.header.bits).Ok?
    && if s.height == 0 then s.chainwork == WorkFromBits(s.header.bits).value
       else
         && s.header.prevBlock in m
         && m[s.header.prevBlock].height + 1 == s.height
         && s.chainwork == m[s.header.prevBlock].chainwork + WorkFromBits(s.header.bits).value
  }

  ghost predicate Linked(net: Network, m: Headers) {
    forall h | h in m :: LinkedAt(net, m, h)
  }

  ghost predicate OneRoot(m: Headers) {
    forall a, b | a in m && b in m && m[a].height == 0 && m[b].height == 0 :: a == b
  }

  ghost predicate BestIsMaximal(st: Store) {
    && st.best.Some? && st.best.value in st.headers
    && forall h | h in st.headers :: st.headers[h].chainwork <= st.headers[st.best.value].chainwork
  }

  /** The height index is what a full rebuild at the best header would write. */
  ghost predicate Indexed(st: Store) {
    && st.best.Some?
    && ChainToHash(st.headers, st.best.value).Ok?
    && st.canonical == IndexHeaders(map[], ChainToHash(st.headers, st.best.value).value)
  }

  ghost predicate Inv(net: Network, st: Store) {
    Linked(net, st.headers) && OneRoot(st.headers) && BestIsMaximal(st) && Indexed(st)
  }

  // ---------------------------------------------------------------- the path to a header

  /** A path from height 0: consecutive stored headers, each one height above its parent. */
  ghost predicate IsPath(m: Headers, path: seq<StoredHeader>) {
    && path != []
    && (forall i | 0 <= i < |path| :: path[i].height == i && path[i].hash in m && m[path[i].hash] == path[i])
    && Consecutive(path)
  }

  /** Summed from the header bits alone, with no stored chainwork. */
  ghost function TotalWork(path: seq<StoredHeader>): nat {
    if path == [] then 0
    else
      var work := WorkFromBits(path[|path| - 1].header.bits);
      TotalWork(path[..|path| - 1]) + if work.Ok? then work.value else 0
  }

  lemma {:induction false} ChainToIsPath(net: Network, m: Headers, h: Hash)
    requires Linked(net, m) && h in m
    ensures ChainTo(m, m[h]).Ok?
    ensures var path := ChainTo(m, m[h]).value;
      && IsPath(m, path) && |path| == m[h].height + 1 && path[m[h].height] == m[h]
      && TotalWork(path) == m[h].chainwork
    decreases m[h].height
  {
    hide WorkFromBits, Linked;
    ParentOf(net, m, h);
    var s := m[h];
    if s.height == 0 {
      assert [s][..0] == [];
    } else {
      ChainToIsPath(net, m, s.header.prevBlock);
      PathExtends(m, ChainTo(m, m[s.header.prevBlock]).value, s);
    }
  }

  /** The facts that Linked says about one header. */
  lemma ParentOf(net: Network, m: Headers, h: Hash)
    requires Linked(net, m) && h in m
    ensures m[h].hash == h && WorkFromBits(m[h].header.bits).Ok?
    ensures m[h].height == 0 ==> m[h].chainwork == WorkFromBits(m[h].header.bits).value
    ensures m[h].height > 0 ==>
              && m[h].header.prevBlock in m
              && m[m[h].header.prevBlock].hash == m[h].header.prevBlock
              && m[m[h].header.prevBlock].height + 1 == m[h].height
              && m[h].chainwork == m[m[h].header.prevBlock].chainwork + WorkFromBits(m[h].header.bits).value
  {
    hide WorkFromBits;
    assert LinkedAt(net, m, h);
    if m[h].height > 0 {
      assert LinkedAt(net, m, m[h].header.prevBlock);
    }
  }

  lemma PathExtends(m: Headers, front: seq<StoredHeader>, s: StoredHeader)
    requires IsPath(m, front) && s.hash in m && m[s.hash] == s
    requires s.height == |front| && s.header.prevBlock == front[|front| - 1].hash
    ensures IsPath(m, front + [s])
    ensures WorkFromBits(s.header.bits).Ok?
        ==> TotalWork(front + [s]) == TotalWork(front) + WorkFromBits(s.header.bits).value
  {
    hide WorkFromBits;
    assert (front + [s])[..|front|] == front;
  }

  /** A path is determined by its last header. */
  lemma {:induction false} PathIsUnique(m: Headers, a: seq<StoredHeader>, b: seq<StoredHeader>)
    requires IsPath(m, a) && IsPath(m, b) && a[|a| - 1] == b[|b| - 1]
    ensures a == b
    decreases |a|
  {
    assert |a| == |b|;
    var n := |a| - 1;
    if n > 0 {
      var a', b' := a[..n], b[..n];
      assert a[n].header.prevBlock == a[n - 1].hash && b[n].header.prevBlock == b[n - 1].hash;
      PathIsUnique(m, a', b');
      assert a == a' + [a[n]] && b == b' + [b[n]];
    }
  }

  lemma {:induction false} IndexedAt(path: seq<StoredHeader>)
    requires forall i | 0 <= i < |path| :: path[i].height == i
    ensures forall k: nat :: k in IndexHeaders(map[], path) <==> k < |path|
    ensures forall k | 0 <= k < |path| :: IndexHeaders(map[], path)[k] == path[k].hash
  {
    if path != [] {
      IndexedAt(path[..|path| - 1]);
    }
  }

  /** Heights in the index are exactly 0 to the best height; each entry is the parent of the next. */
  lemma IndexIsBestPath(net: Network, st: Store)
    requires Inv(net, st)
    ensures var tip := st.headers[st.best.value];
      && (forall k: nat :: k in st.canonical <==> k <= tip.height)
      && st.canonical[tip.height as nat] == tip.hash
      && (forall k: nat | k <= tip.height ::
            st.canonical[k] in st.headers && st.headers[st.canonical[k]].height == k)
      && (forall k: nat | k < tip.height ::
            st.headers[st.canonical[k + 1]].header.prevBlock == st.canonical[k])
  {
    hide WorkFromBits, IndexHeaders, LinkedAt, TotalWork;
    var tip := st.headers[st.best.value];
    ChainToIsPath(net, st.headers, st.best.value);
    var path := ChainTo(st.headers, tip).value;
    BestIsFiledUnderItsHash(net, st);
    IndexedAt(path);
    forall k: nat | k < tip.height
      ensures st.headers[st.canonical[k + 1]].header.prevBlock == st.canonical[k]
    {
      assert path[k + 1].header.prevBlock == path[k].hash;
    }
  }

  lemma BestIsFiledUnderItsHash(net: Network, st: Store)
    requires Inv(net, st)
    ensures st.best.Some? && st.best.value in st.headers && st.headers[st.best.value].hash == st.best.value
  {
    assert LinkedAt(net, st.headers, st.best.value);
  }

  // ---------------------------------------------------------------- adding headers

  ghost predicate Extends(big: Headers, small: Headers) {
    forall h | h in small :: h in big && big[h] == small[h]
  }

  lemma {:induction false} ChainToStable(net: Network, small: Headers, big: Headers, h: Hash)
    requires Linked(net, small) && Extends(big, small) && h in small
    ensures ChainTo(big, small[h]) == ChainTo(small, small[h])
    decreases small[h].height
  {
    assert LinkedAt(net, small, h);
    if small[h].height > 0 {
      ChainToStable(net, small, big, small[h].header.prevBlock);
    }
  }

  /** A validated header continues its parent and has more work than it. */
  lemma ValidatedContinues(net: Network, m: Headers, header: Header)
    requires ValidateInBatch(net, m, header).Ok?
    ensures var s := ValidateInBatch(net, m, header).value;
      && s.header == header && s.hash == net.hashOf(header) && header.prevBlock in m
      && WorkFromBits(header.bits).Ok? && WorkFromBits(header.bits).value >= 1
      && s.height == m[header.prevBlock].height + 1
      && s.chainwork == m[header.prevBlock].chainwork + WorkFromBits(header.bits).value
  {
    WorkIsPositive(DecodeCompact(header.bits).value);
  }

  /** A single insertion accepts the same headers as a batch; only the error reported may differ. */
  lemma ValidateOrderIrrelevant(net: Network, m: Headers, header: Header)
    ensures Validate(net, m, header).Ok? <==> ValidateInBatch(net, m, header).Ok?
    ensures Validate(net, m, header).Ok? ==>
              && Validate(net, m, header) == ValidateInBatch(net, m, header)
              && Validate(net, m, header).value.hash == net.hashOf(header)
  {
    hide WorkFromBits, CheckBits, CheckPow, CheckCheckpoint;
  }

  lemma LinkedAfterPut(net: Network, m: Headers, header: Header)
    requires Linked(net, m) && OneRoot(m)
    requires ValidateInBatch(net, m, header).Ok? && net.hashOf(header) !in m
    ensures var s := ValidateInBatch(net, m, header).value;
      && Linked(net, m[s.hash := s]) && OneRoot(m[s.hash := s]) && Extends(m[s.hash := s], m)
  {
    ValidatedContinues(net, m, header);
    var s := ValidateInBatch(net, m, header).value;
    var m' := m[s.hash := s];
    forall h | h in m'
      ensures LinkedAt(net, m', h)
    {
      if h != s.hash {
        assert LinkedAt(net, m, h);
      }
    }
  }

  // ---------------------------------------------------------------- promotion

  /** A store with the right headers, indexed at a header of maximal work, is a good store. */
  lemma RebuildRestores(net: Network, st: Store, hash: Hash)
    requires Linked(net, st.headers) && hash in st.headers
    ensures var u := PromoteBest(st, hash);
      && u.result.Ok? && u.store.headers == st.headers && u.store.best == Some(hash) && Indexed(u.store)
  {
    ChainToIsPath(net, st.headers, hash);
    var path := ChainTo(st.headers, st.headers[hash]).value;
    assert path[|path| - 1].hash == hash by { assert LinkedAt(net, st.headers, hash); }
  }

  /**
   * On a header that extends the best one, writing its single index entry equals the full rebuild.
   * Other headers may have been added since the index was last written.
   */
  lemma TipPromotionIsRebuild(net: Network, st: Store, s: StoredHeader)
    requires Linked(net, st.headers) && Indexed(st)
    requires s.hash in st.headers && st.headers[s.hash] == s
    requires s.height > 0 && s.header.prevBlock == st.best.value
    ensures PromoteTip(st, s) == PromoteBest(st, s.hash)
    ensures PromoteTip(st, s).result.Ok? && Indexed(PromoteTip(st, s).store)
  {
    RebuildRestores(net, st, s.hash);
    assert LinkedAt(net, st.headers, s.hash);
    var before := ChainToHash(st.headers, st.best.value).value;
    var after := ChainToHash(st.headers, s.hash).value;
    assert after == before + [s];
    assert after[..|after| - 1] == before;
    ChainToIsPath(net, st.headers, s.hash);
  }

  /** Adding headers does not disturb the index. */
  lemma IndexedAfterPut(net: Network, st: Store, big: Headers)
    requires Linked(net, st.headers) && Indexed(st) && Extends(big, st.headers)
    ensures Indexed(st.(headers := big))
  {
    ChainToStable(net, st.headers, big, st.best.value);
  }

  // ---------------------------------------------------------------- single insertion

  /** The first genesis of an empty store sets up the invariant. */
  lemma GenesisEstablishes(net: Network, header: Header)
    requires InsertGenesis(net, Store(map[], map[], None), header).result.Ok?
    ensures Inv(net, InsertGenesis(net, Store(map[], map[], None), header).store)
  {
    var s := InsertGenesis(net, Store(map[], map[], None), header).result.value;
    var st := Store(map[s.hash := s], map[], None);
    assert LinkedAt(net, st.headers, s.hash);
    RebuildRestores(net, st, s.hash);
  }

  /** An insertion keeps the invariant, whether it fails, adds a side branch, extends the tip or reorganises. */
  lemma InsertKeepsInv(net: Network, st: Store, header: Header)
    requires Inv(net, st)
    ensures var u := InsertHeader(net, st, header);
      && Inv(net, u.store)
      && (u.result.Err? ==> u.store == st)
      && (u.result.Ok? ==>
            && Validate(net, st.headers, header) == Ok(u.result.value)
            && u.result.value.hash !in st.headers
            && u.store.headers == st.headers[u.result.value.hash := u.result.value]
            && u.store.best == if u.result.value.chainwork > st.headers[st.best.value].chainwork
                               then Some(u.result.value.hash) else st.best)
  {
    hide WorkFromBits, Validate, ValidateInBatch, ChainToHash, ReplaceCanonical, IndexHeaders, LinkedAt;
    ValidateOrderIrrelevant(net, st.headers, header);
    BestIsFiledUnderItsHash(net, st);
    if Validate(net, st.headers, header).Ok? && net.hashOf(header) !in st.headers {
      var s := Validate(net, st.headers, header).value;
      ValidatedContinues(net, st.headers, header);
      LinkedAfterPut(net, st.headers, header);
      var put := PutHeader(st, s).store;
      IndexedAfterPut(net, st, put.headers);
      if s.chainwork > st.headers[st.best.value].chainwork {
        RebuildRestores(net, put, s.hash);
        if s.header.prevBlock == st.best.value {
          TipPromotionIsRebuild(net, put, s);
        }
      }
    }
  }

  /** What a genesis does to a store that does not hold it yet. */
  lemma GenesisOnStore(net: Network, st: Store, header: Header)
    requires net.hashOf(header) !in st.headers && WorkFromBits(header.bits).Ok?
    requires net.policy.Mainnet? ==> header == net.genesis
    ensures var s := StoredHeader(net.hashOf(header), header, 0, WorkFromBits(header.bits).value);
      InsertGenesis(net, st, header) == Update(Store(st.headers[s.hash := s], map[0 := s.hash], Some(s.hash)), Ok(s))
  {
    hide WorkFromBits;
    var s := StoredHeader(net.hashOf(header), header, 0, WorkFromBits(header.bits).value);
    var put := PutHeader(st, s).store;
    assert ChainToHash(put.headers, s.hash) == Ok([s]);
    assert IndexHeaders(map[], [s][..0]) == map[];
  }

  /**
   * A second genesis on a good store is accepted exactly when it is new and its policy and bits
   * allow it; it then becomes the best header whatever its work, so the best header keeps maximal
   * work exactly when the store held nothing heavier.
   */
  lemma SecondGenesis(net: Network, st: Store, header: Header)
    requires Inv(net, st)
    ensures var u := InsertGenesis(net, st, header);
      && (u.result.Ok? <==> (
            && (net.policy.Mainnet? ==> header == net.genesis)
            && WorkFromBits(header.bits).Ok?
            && net.hashOf(header) !in st.headers))
      && (u.result.Ok? ==>
            && u.store.best == Some(net.hashOf(header))
            && u.store.canonical == map[0 := net.hashOf(header)]
            && (BestIsMaximal(u.store) <==>
                  st.headers[st.best.value].chainwork <= WorkFromBits(header.bits).value)
            && !OneRoot(u.store.headers))
  {
    hide WorkFromBits, PromoteBest, Linked, Indexed;
    var h := net.hashOf(header);
    if (net.policy.Mainnet? ==> header == net.genesis) && WorkFromBits(header.bits).Ok? && h !in st.headers {
      GenesisOnStore(net, st, header);
      RootExists(net, st);
      var root :| root in st.headers && st.headers[root].height == 0;
      var after := InsertGenesis(net, st, header).store.headers;
      assert after[root].height == 0 && after[h].height == 0;
      assert after[st.best.value] == st.headers[st.best.value];
    }
  }

  lemma RootExists(net: Network, st: Store)
    requires Inv(net, st)
    ensures exists h :: h in st.headers && st.headers[h].height == 0
  {
    hide WorkFromBits, LinkedAt;
    ChainToIsPath(net, st.headers, st.best.value);
    var root := ChainTo(st.headers, st.headers[st.best.value]).value[0].hash;
    assert st.headers[root].height == 0;
  }
}
