/**
 * Batch insertion against one-by-one insertion, and what every run of both keeps.
 */
module BatchInsertion {
  import opened Prelude
  import opened Pow
  import opened HeaderTree
  import opened ChainInvariant

  /** The reference: insert each header in turn, skip the known ones, stop at the first failure. */
  function InsertOneByOne(net: Network, st: Store, headers: seq<Header>): Update<()>
    decreases |headers|
  {
    if headers == [] then Update(st, Ok(()))
    else if net.hashOf(headers[0]) in st.headers then InsertOneByOne(net, st, headers[1..])
    else
      var u := InsertHeader(net, st, headers[0]);
      if u.result.Err? then Update(u.store, Err(u.result.error))
      else InsertOneByOne(net, u.store, headers[1..])
  }

  ghost function AddAll(m: Headers, hs: seq<StoredHeader>): Headers
    decreases |hs|
  {
    if hs == [] then m else AddAll(m[hs[0].hash := hs[0]], hs[1..])
  }

  ghost predicate Distinct(hs: seq<StoredHeader>) {
    forall i, j | 0 <= i < j < |hs| :: hs[i].hash != hs[j].hash
  }

  /** New headers, each a child of something stored or accepted, and heavier than it. */
  ghost predicate Fresh(m: Headers, big: Headers, hs: seq<StoredHeader>) {
    forall i | 0 <= i < |hs| ::
      && hs[i].hash !in m && hs[i].hash in big && big[hs[i].hash] == hs[i]
      && hs[i].height > 0
      && hs[i].header.prevBlock in big
      && big[hs[i].header.prevBlock].chainwork < hs[i].chainwork
  }

  ghost predicate NothingElse(m: Headers, big: Headers, hs: seq<StoredHeader>) {
    forall h | h in big :: h in m || exists i :: 0 <= i < |hs| && hs[i].hash == h
  }

  /** What a successful batch validation hands over. */
  lemma {:induction false} AcceptedFacts(net: Network, m: Headers, headers: seq<Header>)
    requires Linked(net, m) && OneRoot(m)
    requires Accept(net, m, headers).Ok?
    ensures var hs := Accept(net, m, headers).value;
      && Linked(net, AddAll(m, hs)) && OneRoot(AddAll(m, hs)) && Extends(AddAll(m, hs), m)
      && Distinct(hs) && Fresh(m, AddAll(m, hs), hs)
      && NothingElse(m, AddAll(m, hs), hs)
    decreases |headers|
  {
    hide ValidateInBatch, WorkFromBits, LinkedAt;
    if headers != [] {
      if net.hashOf(headers[0]) in m {
        AcceptedFacts(net, m, headers[1..]);
      } else {
        var s := ValidateInBatch(net, m, headers[0]).value;
        ValidatedContinues(net, m, headers[0]);
        LinkedAfterPut(net, m, headers[0]);
        var m' := m[s.hash := s];
        AcceptedFacts(net, m', headers[1..]);
        var hs, rest := Accept(net, m, headers).value, Accept(net, m', headers[1..]).value;
        FreshCons(m, s, rest);
        assert hs == [s] + rest && hs[1..] == rest;
        forall h | h in AddAll(m, hs) && h !in m
          ensures exists i :: 0 <= i < |hs| && hs[i].hash == h
        {
          if h == s.hash {
            assert hs[0].hash == h;
          } else {
            var i :| 0 <= i < |rest| && rest[i].hash == h;
            assert hs[i + 1].hash == h;
          }
        }
      }
    }
  }

  lemma FreshCons(m: Headers, s: StoredHeader, rest: seq<StoredHeader>)
    requires s.hash !in m && s.height > 0 && s.header.prevBlock in m && m[s.header.prevBlock].chainwork < s.chainwork
    requires Distinct(rest) && Fresh(m[s.hash := s], AddAll(m[s.hash := s], rest), rest)
    requires Extends(AddAll(m[s.hash := s], rest), m[s.hash := s])
    ensures Distinct([s] + rest) && Fresh(m, AddAll(m, [s] + rest), [s] + rest)
  {
    var hs := [s] + rest;
    assert hs[1..] == rest;
    assert AddAll(m, hs) == AddAll(m[s.hash := s], rest);
    forall i | 0 < i < |hs|
      ensures hs[i] == rest[i - 1]
    {
    }
  }

  lemma {:induction false} PutHeadersStores(st: Store, hs: seq<StoredHeader>)
    requires Distinct(hs) && forall i | 0 <= i < |hs| :: hs[i].hash !in st.headers
    ensures PutHeaders(st, hs) == Update(st.(headers := AddAll(st.headers, hs)), Ok(()))
    decreases |hs|
  {
    if hs != [] {
      PutHeadersStores(PutHeader(st, hs[0]).store, hs[1..]);
    }
  }

  // ---------------------------------------------------------------- one by one

  /** The best header after meeting others in order: only strictly more work replaces it. */
  ghost function BestAfter(best: StoredHeader, hs: seq<StoredHeader>): StoredHeader
    decreases |hs|
  {
    if hs == [] then best
    else BestAfter(if hs[0].chainwork > best.chainwork then hs[0] else best, hs[1..])
  }

  ghost function Tip(st: Store): StoredHeader
    requires st.best.Some? && st.best.value in st.headers
  {
    st.headers[st.best.value]
  }

  /** One-by-one insertion succeeds exactly with the batch validation and stores the same headers. */
  lemma {:induction false} OneByOneFollowsAccept(net: Network, st: Store, headers: seq<Header>)
    requires Inv(net, st)
    ensures var s := InsertOneByOne(net, st, headers); var a := Accept(net, st.headers, headers);
      && Inv(net, s.store)
      && (s.result.Ok? <==> a.Ok?)
      && (a.Ok? ==> s.store.headers == AddAll(st.headers, a.value) && Tip(s.store) == BestAfter(Tip(st), a.value))
    decreases |headers|
  {
    hide Validate, ValidateInBatch, InsertHeader, Linked, OneRoot, Indexed, WorkFromBits;
    if headers != [] {
      if net.hashOf(headers[0]) in st.headers {
        OneByOneFollowsAccept(net, st, headers[1..]);
      } else {
        ValidateOrderIrrelevant(net, st.headers, headers[0]);
        InsertKeepsInv(net, st, headers[0]);
        InsertSucceeds(net, st, headers[0]);
        var u := InsertHeader(net, st, headers[0]);
        if u.result.Ok? {
          OneByOneFollowsAccept(net, u.store, headers[1..]);
          var a := Accept(net, st.headers, headers);
          if a.Ok? {
            assert a.value[1..] == Accept(net, u.store.headers, headers[1..]).value;
          }
        }
      }
    }
  }

  lemma InsertSucceeds(net: Network, st: Store, header: Header)
    requires Inv(net, st) && net.hashOf(header) !in st.headers
    ensures InsertHeader(net, st, header).result.Ok? <==> Validate(net, st.headers, header).Ok?
  {
    hide WorkFromBits, Validate, ValidateInBatch, ChainToHash, ReplaceCanonical, IndexHeaders, LinkedAt;
    ValidateOrderIrrelevant(net, st.headers, header);
    BestIsFiledUnderItsHash(net, st);
    if Validate(net, st.headers, header).Ok? {
      var s := Validate(net, st.headers, header).value;
      ValidatedContinues(net, st.headers, header);
      LinkedAfterPut(net, st.headers, header);
      RebuildRestores(net, PutHeader(st, s).store, s.hash);
    }
  }

  // ---------------------------------------------------------------- the batch

  /** Writing the tips of a consecutive extension one after another also equals the rebuild. */
  lemma {:induction false} TipsPromotionIsRebuild(net: Network, st: Store, hs: seq<StoredHeader>)
    requires Linked(net, st.headers) && Indexed(st) && hs != [] && Consecutive(hs)
    requires hs[0].header.prevBlock == st.best.value
    requires forall i | 0 <= i < |hs| ::
      hs[i].hash in st.headers && st.headers[hs[i].hash] == hs[i] && hs[i].height > 0
    ensures PromoteTips(st, hs) == PromoteBest(st, hs[|hs| - 1].hash)
    ensures var u := PromoteTips(st, hs);
      u.result.Ok? && Indexed(u.store) && u.store.headers == st.headers && u.store.best == Some(hs[|hs| - 1].hash)
    decreases |hs|
  {
    hide Linked, Indexed, ChainToHash;
    TipPromotionIsRebuild(net, st, hs[0]);
    RebuildRestores(net, st, hs[|hs| - 1].hash);
    var u := PromoteTip(st, hs[0]);
    if |hs| > 1 {
      var rest := hs[1..];
      assert rest[0].header.prevBlock == hs[0].hash;
      forall i | 0 < i < |rest|
        ensures rest[i].header.prevBlock == rest[i - 1].hash
      {
        assert hs[i + 1].header.prevBlock == hs[i].hash;
      }
      TipsPromotionIsRebuild(net, u.store, rest);
      assert rest[|rest| - 1] == hs[|hs| - 1];
    } else {
      assert hs[1..] == [];
    }
  }

  /** The tip after a batch: its last heaviest header if heavier than the old tip. */
  ghost function BatchTip(best: StoredHeader, hs: seq<StoredHeader>): StoredHeader {
    if hs != [] && hs[LastMaximum(hs)].chainwork > best.chainwork then hs[LastMaximum(hs)] else best
  }

  /** Every promotion path of a batch ends with the index of the batch tip. */
  lemma PromoteBatchIndexes(net: Network, m: Headers, st: Store, best: StoredHeader, hs: seq<StoredHeader>)
    requires Linked(net, st.headers) && Indexed(st) && hs != []
    requires st.best == Some(best.hash) && best.hash in st.headers && st.headers[best.hash] == best
    requires Fresh(m, st.headers, hs)
    ensures var u := PromoteBatch(st, Some(best), hs); var tip := BatchTip(best, hs);
      && u.result.Ok? && u.store.headers == st.headers && Indexed(u.store)
      && u.store.best == Some(tip.hash) && tip.hash in st.headers && st.headers[tip.hash] == tip
  {
    hide Linked, Indexed, PromoteBest, PromoteTips, LastMaximum, LinkedAt;
    var top := LastMaximum(hs);
    if hs[top].chainwork > best.chainwork {
      RebuildRestores(net, st, hs[top].hash);
      var front := hs[..top + 1];
      if hs[0].header.prevBlock == best.hash && Consecutive(front) {
        TipsPromotionIsRebuild(net, st, front);
      }
    }
  }

  /** A batch that validates is stored whole and keeps the invariant, on every promotion path. */
  lemma BatchKeepsInv(net: Network, st: Store, headers: seq<Header>)
    requires Inv(net, st)
    ensures var u := InsertHeaders(net, st, headers); var a := Accept(net, st.headers, headers);
      && Inv(net, u.store)
      && u.result == a
      && (a.Err? ==> u.store == st)
      && (a.Ok? ==> u.store.headers == AddAll(st.headers, a.value) && Tip(u.store) == BatchTip(Tip(st), a.value))
  {
    assert AddAll(st.headers, []) == st.headers;
    hide Accept, Linked, Indexed, OneRoot, PromoteBatch, PutHeaders, AddAll, BatchTip, NothingElse, Distinct, Fresh;
    var a := Accept(net, st.headers, headers);
    if a.Ok? && a.value != [] {
      AcceptedFacts(net, st.headers, headers);
      BestIsFiledUnderItsHash(net, st);
      FreshAreNew(st.headers, AddAll(st.headers, a.value), a.value);
      PutHeadersStores(st, a.value);
      var put := PutHeaders(st, a.value).store;
      IndexedAfterPut(net, st, put.headers);
      PromoteBatchIndexes(net, st.headers, put, Tip(st), a.value);
      MaximalAfterBatch(st, a.value);
    } else {
      NothingPromoted(Tip(st));
    }
  }

  lemma FreshAreNew(m: Headers, big: Headers, hs: seq<StoredHeader>)
    requires Fresh(m, big, hs)
    ensures forall i | 0 <= i < |hs| :: hs[i].hash !in m
  {
  }

  lemma NothingPromoted(best: StoredHeader)
    ensures BatchTip(best, []) == best
  {
  }

  lemma MaximalAfterBatch(st: Store, hs: seq<StoredHeader>)
    requires BestIsMaximal(st) && hs != []
    requires NothingElse(st.headers, AddAll(st.headers, hs), hs) && Fresh(st.headers, AddAll(st.headers, hs), hs)
    requires Extends(AddAll(st.headers, hs), st.headers)
    ensures forall h | h in AddAll(st.headers, hs) :: AddAll(st.headers, hs)[h].chainwork <= BatchTip(Tip(st), hs).chainwork
  {
  }

  // ---------------------------------------------------------------- the two agree

  /** The first header of maximal work at position i. */
  ghost predicate FirstHeaviestAt(hs: seq<StoredHeader>, i: nat) {
    && i < |hs|
    && (forall k | 0 <= k < |hs| :: hs[k].chainwork <= hs[i].chainwork)
    && (forall k | 0 <= k < i :: hs[k].chainwork < hs[i].chainwork)
  }

  /** One-by-one insertion ends on the first heaviest header, if any is heavier than the old tip. */
  lemma {:induction false} FirstHeaviestWins(best: StoredHeader, hs: seq<StoredHeader>) returns (i: nat)
    ensures if forall k | 0 <= k < |hs| :: hs[k].chainwork <= best.chainwork
            then BestAfter(best, hs) == best
            else FirstHeaviestAt(hs, i) && BestAfter(best, hs) == hs[i] && hs[i].chainwork > best.chainwork
    decreases |hs|
  {
    i := 0;
    if hs != [] {
      var next, rest := if hs[0].chainwork > best.chainwork then hs[0] else best, hs[1..];
      assert forall k | 0 < k < |hs| :: hs[k] == rest[k - 1];
      var j := FirstHeaviestWins(next, rest);
      if exists k :: 0 <= k < |rest| && rest[k].chainwork > next.chainwork {
        i := j + 1;
        assert hs[i] == rest[j];
      }
    }
  }

  /** The greatest work of the batch occurs once. */
  ghost predicate UniqueMaximum(hs: seq<StoredHeader>) {
    hs != [] ==> forall k | 0 <= k < |hs| && hs[k].chainwork == hs[LastMaximum(hs)].chainwork :: k == LastMaximum(hs)
  }

  /**
   * A batch refines one-by-one insertion. It succeeds exactly when every single insertion does and
   * leaves the store alone when validation fails; otherwise both store the same headers, keep the
   * invariant and reach the same best chainwork. The two stores are equal exactly when the batch
   * brings nothing heavier than the old tip or has one heaviest header only.
   */
  lemma BatchRefinesOneByOne(net: Network, st: Store, headers: seq<Header>)
    requires Inv(net, st)
    ensures var b := InsertHeaders(net, st, headers); var s := InsertOneByOne(net, st, headers);
      && (b.result.Ok? <==> s.result.Ok?)
      && (b.result.Err? ==> b.store == st)
      && Inv(net, b.store) && Inv(net, s.store)
      && (b.result.Ok? ==>
            && b.store.headers == s.store.headers
            && Tip(b.store).chainwork == Tip(s.store).chainwork
            && (b.store == s.store <==>
                  || (forall k | 0 <= k < |b.result.value| :: b.result.value[k].chainwork <= Tip(st).chainwork)
                  || UniqueMaximum(b.result.value)))
  {
    hide Accept, InsertHeaders, InsertOneByOne, LastMaximum, OneRoot, BestAfter, AddAll, LinkedAt;
    BatchKeepsInv(net, st, headers);
    OneByOneFollowsAccept(net, st, headers);
    var b, s := InsertHeaders(net, st, headers), InsertOneByOne(net, st, headers);
    if b.result.Ok? {
      var hs := b.result.value;
      AcceptedFacts(net, st.headers, headers);
      var i := FirstHeaviestWins(Tip(st), hs);
      BestIsFiledUnderItsHash(net, b.store);
      BestIsFiledUnderItsHash(net, s.store);
      assert b.store == s.store <==> b.store.best == s.store.best;
      if exists k :: 0 <= k < |hs| && hs[k].chainwork > Tip(st).chainwork {
        var top := LastMaximum(hs);
        assert Tip(b.store) == hs[top] && Tip(s.store) == hs[i];
        assert hs[i].chainwork == hs[top].chainwork && i <= top;
        assert i != top ==> hs[i].hash != hs[top].hash;
      }
    }
  }

  /** A linear batch has its heaviest header last and no other one as heavy. */
  lemma LinearBatchIsUnique(net: Network, st: Store, headers: seq<Header>)
    requires Inv(net, st) && InsertHeaders(net, st, headers).result.Ok?
    requires Consecutive(InsertHeaders(net, st, headers).result.value)
    ensures UniqueMaximum(InsertHeaders(net, st, headers).result.value)
    ensures InsertHeaders(net, st, headers).store == InsertOneByOne(net, st, headers).store
  {
    hide Accept, InsertHeaders, InsertOneByOne, LastMaximum, Linked, OneRoot, AddAll, Inv;
    BatchKeepsInv(net, st, headers);
    assert Linked(net, st.headers) && OneRoot(st.headers) by { InvParts(net, st); }
    AcceptedFacts(net, st.headers, headers);
    var hs := InsertHeaders(net, st, headers).result.value;
    forall j | 0 < j < |hs|
      ensures hs[j - 1].chainwork < hs[j].chainwork
    {
      assert hs[j].header.prevBlock == hs[j - 1].hash;
    }
    StepwiseIncrease(hs);
    BatchRefinesOneByOne(net, st, headers);
  }

  lemma InvParts(net: Network, st: Store)
    requires Inv(net, st)
    ensures Linked(net, st.headers) && OneRoot(st.headers)
  {
  }

  lemma {:induction false} StepwiseIncrease(hs: seq<StoredHeader>)
    requires forall j | 0 < j < |hs| :: hs[j - 1].chainwork < hs[j].chainwork
    ensures forall i, j | 0 <= i < j < |hs| :: hs[i].chainwork < hs[j].chainwork
  {
    if |hs| > 1 {
      var front := hs[..|hs| - 1];
      StepwiseIncrease(front);
      forall i, j | 0 <= i < j < |hs|
        ensures hs[i].chainwork < hs[j].chainwork
      {
        assert i == |hs| - 2 || front[i].chainwork < front[|hs| - 2].chainwork;
        assert j == |hs| - 1 || front[i].chainwork < front[j].chainwork;
      }
    }
  }

  // ---------------------------------------------------------------- a tie, concretely

  const EASY_BITS: u32 := 0x207fffff

  /** A hash function that reads the hash off the header, and three headers over it. */
  const ToyNetwork: Network :=
    Network(Permissive, (h: Header) => if |h.rest| == 32 then h.rest else Zeros(32),
            Header(0, Zeros(32), EASY_BITS, Zeros(32)), (_: nat) => None)

  function ToyHash(n: byte): Hash { Zeros(31) + [n] }

  function ToyChild(n: byte): Header { Header(0, Zeros(32), EASY_BITS, ToyHash(n)) }

  lemma ToyHeaderIsValid(m: Headers, n: byte)
    requires Zeros(32) in m && m[Zeros(32)].height == 0
    ensures WorkFromBits(EASY_BITS).Ok?
    ensures ValidateInBatch(ToyNetwork, m, ToyChild(n))
         == Ok(StoredHeader(ToyHash(n), ToyChild(n), 1, m[Zeros(32)].chainwork + WorkFromBits(EASY_BITS).value))
  {
    EasyBitsDecode();
    hide WorkFromBits, DecodeCompact, VerifyPow;
    VerifyPowDecoded(ToyHash(n), EASY_BITS);
    ToyHashValue(n);
  }

  lemma ToyHashValue(n: byte)
    ensures BigEndian(ToyHash(n)) == n
  {
    BigEndianConcat(Zeros(31), [n]);
    BigEndianZeros(31);
    assert BigEndian([n]) == BigEndian([n][..0]) * 256 + n;
  }

  lemma EasyBitsDecode()
    ensures DecodeCompact(EASY_BITS).Ok? && DecodeCompact(EASY_BITS).value >= 256
    ensures WorkFromBits(EASY_BITS).Ok?
  {
    TwoTo256();
    Pow256Add(29, 3);
    assert Pow256(3) == 0x100_0000;
    Pow256Monotone(1, 29);
    assert Pow256(1) == 256;
  }

  /** Two children of genesis with equal work, in one batch: the batch ends on the second, one by one ends on the first. */
  lemma TieInBatchDiffers()
    ensures var genesis := InsertGenesis(ToyNetwork, Store(map[], map[], None), ToyNetwork.genesis);
      && genesis.result.Ok?
      && InsertHeaders(ToyNetwork, genesis.store, [ToyChild(1), ToyChild(2)]).store.best == Some(ToyHash(2))
      && InsertOneByOne(ToyNetwork, genesis.store, [ToyChild(1), ToyChild(2)]).store.best == Some(ToyHash(1))
  {
    EasyBitsDecode();
    hide WorkFromBits;
    var empty := Store(map[], map[], None);
    GenesisOnStore(ToyNetwork, empty, ToyNetwork.genesis);
    GenesisEstablishes(ToyNetwork, ToyNetwork.genesis);
    var st := InsertGenesis(ToyNetwork, empty, ToyNetwork.genesis).store;
    TieAfterGenesis(st);
  }

  lemma TieAfterGenesis(st: Store)
    requires Inv(ToyNetwork, st) && st.best == Some(Zeros(32)) && st.headers.Keys == {Zeros(32)}
    requires st.headers[Zeros(32)].height == 0
    ensures InsertHeaders(ToyNetwork, st, [ToyChild(1), ToyChild(2)]).store.best == Some(ToyHash(2))
    ensures InsertOneByOne(ToyNetwork, st, [ToyChild(1), ToyChild(2)]).store.best == Some(ToyHash(1))
  {
    hide WorkFromBits, ValidateInBatch, Validate, InsertHeader, InsertHeaders, Inv, Zeros;
    var hs := [ToyChild(1), ToyChild(2)];
    assert ToyHash(1)[31] == 1 && ToyHash(2)[31] == 2 && Zeros(32)[31] == 0;
    ToyHeaderIsValid(st.headers, 1);
    var first := ValidateInBatch(ToyNetwork, st.headers, hs[0]).value;
    var m' := st.headers[first.hash := first];
    ToyHeaderIsValid(m', 2);
    var second := ValidateInBatch(ToyNetwork, m', hs[1]).value;
    assert hs[1..] == [ToyChild(2)] && hs[1..][1..] == [];
    assert Accept(ToyNetwork, m', hs[1..]) == Ok([second] + []);
    assert Accept(ToyNetwork, st.headers, hs) == Ok([first] + ([second] + []));
    var accepted := [first] + ([second] + []);
    assert accepted == [first, second];
    ValidatedContinues(ToyNetwork, st.headers, hs[0]);
    BatchKeepsInv(ToyNetwork, st, hs);
    assert LastMaximum(accepted) == 1 by { assert accepted[..1] == [first]; }
    OneByOneFollowsAccept(ToyNetwork, st, hs);
    assert first.chainwork == second.chainwork > st.headers[Zeros(32)].chainwork;
    assert accepted[1..] == [second] && [second][1..] == [];
    assert BestAfter(first, [second]) == BestAfter(first, []) == first;
    BestIsFiledUnderItsHash(ToyNetwork, InsertHeaders(ToyNetwork, st, hs).store);
    BestIsFiledUnderItsHash(ToyNetwork, InsertOneByOne(ToyNetwork, st, hs).store);
  }

  // ---------------------------------------------------------------- runs

  datatype Request = Single(header: Header) | Batch(headers: seq<Header>)

  /** Any sequence of insertions; a failed one is reported and the run goes on. */
  ghost function Run(net: Network, st: Store, requests: seq<Request>): Store
    decreases |requests|
  {
    if requests == [] then st
    else
      var next := match requests[0]
        case Single(header) => InsertHeader(net, st, header).store
        case Batch(headers) => InsertHeaders(net, st, headers).store;
      Run(net, next, requests[1..])
  }

  /** The invariant holds after every run, and no header is ever dropped or rewritten. */
  lemma {:induction false} RunKeepsInv(net: Network, st: Store, requests: seq<Request>)
    requires Inv(net, st)
    ensures Inv(net, Run(net, st, requests))
    ensures Extends(Run(net, st, requests).headers, st.headers)
    ensures Tip(st).chainwork <= Tip(Run(net, st, requests)).chainwork
    decreases |requests|
  {
    hide Linked, OneRoot, Indexed, InsertHeader, InsertHeaders, Accept, Validate;
    if requests != [] {
      match requests[0] {
        case Single(header) =>
          InsertKeepsInv(net, st, header);
          RunKeepsInv(net, InsertHeader(net, st, header).store, requests[1..]);
        case Batch(headers) =>
          BatchKeepsInv(net, st, headers);
          if Accept(net, st.headers, headers).Ok? {
            AcceptedFacts(net, st.headers, headers);
          }
          RunKeepsInv(net, InsertHeaders(net, st, headers).store, requests[1..]);
      }
    }
  }

  /** From an accepted genesis on: the index is the genesis-to-best path and equals a rebuild from scratch. */
  lemma ReachableStores(net: Network, start: Store, genesis: Header, requests: seq<Request>, st: Store)
    requires InsertGenesis(net, Store(map[], map[], None), genesis).result.Ok?
    requires start == InsertGenesis(net, Store(map[], map[], None), genesis).store
    requires st == Run(net, start, requests)
    ensures Inv(net, st)
    ensures st.best.Some? && PromoteBest(st, st.best.value) == Update(st, Ok(()))
    ensures 0 in st.canonical && st.canonical[0] == net.hashOf(genesis)
  {
    hide Run, Inv, InsertGenesis, PromoteBest, OneRoot;
    GenesisEstablishes(net, genesis);
    RunKeepsInv(net, start, requests);
    RebuildKeeps(net, st);
    IndexIsBestPath(net, st);
    GenesisIsRoot(net, genesis);
    BestIsFiledUnderItsHash(net, st);
    RootIs(net, st, st.canonical[0], net.hashOf(genesis));
  }

  lemma RootIs(net: Network, st: Store, a: Hash, b: Hash)
    requires Inv(net, st) && a in st.headers && b in st.headers
    requires st.headers[a].height == 0 && st.headers[b].height == 0
    ensures a == b
  {
    hide Linked, Indexed, BestIsMaximal;
  }

  lemma GenesisIsRoot(net: Network, genesis: Header)
    requires InsertGenesis(net, Store(map[], map[], None), genesis).result.Ok?
    ensures var m := InsertGenesis(net, Store(map[], map[], None), genesis).store.headers;
      net.hashOf(genesis) in m && m[net.hashOf(genesis)].height == 0
  {
    hide WorkFromBits;
    GenesisOnStore(net, Store(map[], map[], None), genesis);
  }

  lemma RebuildKeeps(net: Network, st: Store)
    requires Inv(net, st)
    ensures st.best.Some? && PromoteBest(st, st.best.value) == Update(st, Ok(()))
  {
    hide LinkedAt, OneRoot, IndexHeaders;
    RebuildRestores(net, st, st.best.value);
  }
}
