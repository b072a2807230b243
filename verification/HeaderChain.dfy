/**
 * The mutable header store and the chain over it. Every method is tied to the function in
 * HeaderTree.dfy that says what it does, on every store, well-formed or not.
 */
module HeaderChain {
  import opened Arithmetic
  import opened Prelude
  import opened Pow
  import opened HeaderTree
  import opened StableSort

  class MemoryHeaderStore {
    var headers: map<Hash, StoredHeader>
    var canonical: map<nat, Hash>
    var best: Option<Hash>

    ghost function View(): Store
      reads this
    {
      Store(headers, canonical, best)
    }

    constructor ()
      ensures View() == Store(map[], map[], None)
    {
      headers, canonical, best := map[], map[], None;
    }

    method GetHeader(hash: Hash) returns (r: Option<StoredHeader>)
      ensures r == if hash in headers then Some(headers[hash]) else None
    {
      r := if hash in headers then Some(headers[hash]) else None;
    }

    method PutHeader(header: StoredHeader) returns (r: Result<(), ChainError>)
      modifies this
      ensures Update(View(), r) == HeaderTree.PutHeader(old(View()), header)
    {
      if header.hash in headers {
        return Err(DuplicateHeader);
      }
      headers := headers[header.hash := header];
      return Ok(());
    }

    method PutHeaders(added: seq<StoredHeader>) returns (r: Result<(), ChainError>)
      modifies this
      ensures Update(View(), r) == HeaderTree.PutHeaders(old(View()), added)
    {
      for i := 0 to |added|
        invariant HeaderTree.PutHeaders(old(View()), added) == HeaderTree.PutHeaders(View(), added[i..])
      {
        r := PutHeader(added[i]);
        assert added[i..][1..] == added[i + 1..];
        if r.Err? {
          return;
        }
      }
      return Ok(());
    }

    method PromoteCanonicalTip(header: StoredHeader) returns (r: Result<(), ChainError>)
      modifies this
      ensures Update(View(), r) == PromoteTip(old(View()), header)
    {
      if header.hash !in headers {
        return Err(MissingBestHeader);
      }
      canonical := canonical[header.height as nat := header.hash];
      best := Some(header.hash);
      return Ok(());
    }

    method PromoteCanonicalTips(tips: seq<StoredHeader>) returns (r: Result<(), ChainError>)
      modifies this
      ensures Update(View(), r) == PromoteTips(old(View()), tips)
    {
      for i := 0 to |tips|
        invariant PromoteTips(old(View()), tips) == PromoteTips(View(), tips[i..])
      {
        r := PromoteCanonicalTip(tips[i]);
        assert tips[i..][1..] == tips[i + 1..];
        if r.Err? {
          return;
        }
      }
      return Ok(());
    }

    method ReplaceCanonicalChain(chain: seq<StoredHeader>) returns (r: Result<(), ChainError>)
      modifies this
      ensures Update(View(), r) == ReplaceCanonical(old(View()), chain)
    {
      if chain == [] {
        return Err(MissingBestHeader);
      }
      if exists i | 0 <= i < |chain| :: chain[i].hash !in headers {
        return Err(MissingBestHeader);
      }
      canonical := map[];
      for i := 0 to |chain|
        invariant headers == old(headers) && best == old(best)
        invariant canonical == IndexHeaders(map[], chain[..i])
      {
        canonical := canonical[chain[i].height as nat := chain[i].hash];
        assert chain[..i + 1][..i] == chain[..i];
      }
      assert chain[..|chain|] == chain;
      best := Some(chain[|chain| - 1].hash);
      return Ok(());
    }
  }

  class HeaderChain {
    const net: Network
    const store: MemoryHeaderStore

    constructor (net: Network, store: MemoryHeaderStore)
      ensures this.net == net && this.store == store
    {
      this.net, this.store := net, store;
    }

    /** Headers accepted so far in a batch shadow the stored ones. */
    ghost function Known(pending: map<Hash, StoredHeader>): Headers
      reads store
    {
      store.headers + pending
    }

    method LookUp(hash: Hash, pending: map<Hash, StoredHeader>) returns (r: Option<StoredHeader>)
      ensures r == if hash in Known(pending) then Some(Known(pending)[hash]) else None
    {
      if hash in pending {
        return Some(pending[hash]);
      }
      r := store.GetHeader(hash);
    }

    method PreviousWithPending(header: StoredHeader, pending: map<Hash, StoredHeader>)
      returns (r: Result<StoredHeader, ChainError>)
      ensures r == Previous(Known(pending), header)
    {
      var previous := LookUp(header.header.prevBlock, pending);
      if previous.None? {
        return Err(UnknownParent);
      }
      if previous.value.height == U32_MAX || previous.value.height + 1 != header.height {
        return Err(InvalidDifficultyWindow);
      }
      return Ok(previous.value);
    }

    method AncestorWithPending(header: StoredHeader, height: nat, pending: map<Hash, StoredHeader>)
      returns (r: Result<StoredHeader, ChainError>)
      ensures r == Ancestor(Known(pending), header, height)
    {
      if height > header.height {
        return Err(InvalidDifficultyWindow);
      }
      var current := header;
      while current.height > height
        invariant current.height >= height
        invariant Ancestor(Known(pending), header, height) == Ancestor(Known(pending), current, height)
        decreases current.height
      {
        var previous := PreviousWithPending(current, pending);
        if previous.Err? {
          return previous;
        }
        current := previous.value;
      }
      return Ok(current);
    }

    method SuitableBlockWithPending(header: StoredHeader, pending: map<Hash, StoredHeader>)
      returns (r: Result<StoredHeader, ChainError>)
      ensures r == Suitable(Known(pending), header)
    {
      var y := PreviousWithPending(header, pending);
      if y.Err? {
        return y;
      }
      var x := PreviousWithPending(y.value, pending);
      if x.Err? {
        return x;
      }
      var blocks := new StoredHeader[] [x.value, y.value, header];
      assert blocks[..] == [x.value, y.value, header];
      SortByTime(blocks);
      MiddleOfThree(x.value, y.value, header);
      return Ok(blocks[1]);
    }

    method ExpectedMainnetBitsWithPending(parent: StoredHeader, pending: map<Hash, StoredHeader>)
      returns (r: Result<u32, ChainError>)
      ensures r == ExpectedBits(Known(pending), parent)
    {
      hide HeaderTree.RetargetBits, Suitable, Ancestor;
      if parent.height < BLOCKS_PER_DAY + 2 {
        return Ok(POW_BITS);
      }
      var last := SuitableBlockWithPending(parent, pending);
      if last.Err? {
        return Err(last.error);
      }
      var ancestor := AncestorWithPending(parent, parent.height - BLOCKS_PER_DAY, pending);
      if ancestor.Err? {
        return Err(ancestor.error);
      }
      var first := SuitableBlockWithPending(ancestor.value, pending);
      if first.Err? {
        return Err(first.error);
      }
      r := RetargetBits(first.value, last.value);
    }

    method RetargetBits(first: StoredHeader, last: StoredHeader) returns (r: Result<u32, ChainError>)
      ensures r == HeaderTree.RetargetBits(first, last)
    {
      hide EncodeCompact, DecodeCompact, TargetForWork;
      if last.height <= first.height || last.chainwork < first.chainwork {
        return Err(InvalidDifficultyWindow);
      }
      var timespan := if last.header.time < first.header.time then 0 else last.header.time - first.header.time;
      timespan := Clamp(timespan, MIN_TIMESPAN, MAX_TIMESPAN);
      var work := last.chainwork - first.chainwork;
      work := work * TARGET_SPACING;
      work := Quotient(work, timespan);
      if work == 0 {
        return Ok(POW_BITS);
      }
      var target := TargetForWork(work);
      if target.Err? {
        return Err(PowFailure(target.error));
      }
      TargetForWorkRange(work);
      var limit := CompactToTarget(POW_BITS);
      if limit.Err? {
        return Err(PowFailure(limit.error));
      }
      if target.value > limit.value {
        return Ok(POW_BITS);
      }
      var bits := TargetToCompact(target.value);
      return Ok(bits);
    }

    method ValidateDifficultyBitsWithPending(header: Header, parent: StoredHeader, pending: map<Hash, StoredHeader>)
      returns (r: Result<(), ChainError>)
      ensures r == CheckBits(net, Known(pending), header, parent)
    {
      hide ExpectedBits;
      if net.policy.Permissive? {
        return Ok(());
      }
      var expected := ExpectedMainnetBitsWithPending(parent, pending);
      if expected.Err? {
        return Err(expected.error);
      }
      if header.bits != expected.value {
        return Err(InvalidDifficultyBits);
      }
      return Ok(());
    }

    method CanonicalChainTo(hash: Hash) returns (r: Result<seq<StoredHeader>, ChainError>)
      ensures r == ChainToHash(store.headers, hash)
    {
      var found := store.GetHeader(hash);
      if found.None? {
        return Err(MissingBestHeader);
      }
      var current := found.value;
      var chain := [current];
      ghost var above: seq<StoredHeader> := [];
      assert forall below: seq<StoredHeader> :: below + above == below;
      while current.height > 0
        invariant chain == Reversed([current] + above)
        invariant ChainTo(store.headers, found.value) == match ChainTo(store.headers, current)
                    case Ok(below) => Ok(below + above)
                    case Err(e) => Err(e)
        decreases current.height
      {
        var previous := PreviousWithPending(current, map[]);
        assert store.headers + map[] == store.headers;
        if previous.Err? {
          return Err(previous.error);
        }
        above := [current] + above;
        current := previous.value;
        chain := chain + [current];
        SplitBelow(store.headers, current, above);
      }
      ReversedTwice([current] + above);
      return Ok(Reversed(chain));
    }

    method BestHeader() returns (r: Result<Option<StoredHeader>, ChainError>)
      ensures r == HeaderTree.BestHeader(store.View())
    {
      if store.best.None? {
        return Ok(None);
      }
      var best := store.GetHeader(store.best.value);
      return if best.None? then Err(MissingBestHeader) else Ok(best);
    }

    method PromoteBestHash(hash: Hash) returns (r: Result<(), ChainError>)
      modifies store
      ensures Update(store.View(), r) == PromoteBest(old(store.View()), hash)
    {
      var chain := CanonicalChainTo(hash);
      if chain.Err? {
        return Err(chain.error);
      }
      r := store.ReplaceCanonicalChain(chain.value);
    }

    method InsertGenesis(header: Header) returns (r: Result<StoredHeader, ChainError>)
      modifies store
      ensures Update(store.View(), r) == HeaderTree.InsertGenesis(net, old(store.View()), header)
    {
      hide WorkFromBits, PromoteBest;
      if net.policy.Mainnet? && header != net.genesis {
        return Err(InvalidGenesisHeader);
      }
      var work := WorkFromBits(header.bits);
      if work.Err? {
        return Err(PowFailure(work.error));
      }
      var stored := StoredHeader(net.hashOf(header), header, 0, work.value);
      var put := store.PutHeader(stored);
      if put.Err? {
        return Err(put.error);
      }
      var promoted := PromoteBestHash(stored.hash);
      return if promoted.Err? then Err(promoted.error) else Ok(stored);
    }

    method InsertHeader(header: Header) returns (r: Result<StoredHeader, ChainError>)
      modifies store
      ensures Update(store.View(), r) == HeaderTree.InsertHeader(net, old(store.View()), header)
    {
      hide WorkFromBits, VerifyPow, PromoteBest, CheckBits;
      assert Known(map[]) == store.headers;
      var parent := store.GetHeader(header.prevBlock);
      if parent.None? {
        return Err(UnknownParent);
      }
      var hash := net.hashOf(header);
      if parent.value.height == U32_MAX {
        return Err(InvalidDifficultyWindow);
      }
      var height := parent.value.height + 1;
      var bitsChecked := ValidateDifficultyBitsWithPending(header, parent.value, map[]);
      if bitsChecked.Err? {
        return Err(bitsChecked.error);
      }
      var powHolds := VerifyPow(hash, header.bits);
      if powHolds.Err? {
        return Err(PowFailure(powHolds.error));
      }
      if !powHolds.value {
        return Err(InvalidProofOfWork);
      }
      var checkpoint := CheckCheckpoint(net, height, hash);
      if checkpoint.Err? {
        return Err(checkpoint.error);
      }
      var work := WorkFromBits(header.bits);
      if work.Err? {
        return Err(PowFailure(work.error));
      }
      var stored := StoredHeader(hash, header, height, parent.value.chainwork + work.value);
      var put := store.PutHeader(stored);
      if put.Err? {
        return Err(put.error);
      }
      var best := BestHeader();
      if best.Err? {
        return Err(best.error);
      }
      var extendsBest := best.value.Some? && stored.header.prevBlock == best.value.value.hash;
      var shouldPromote := best.value.None? || stored.chainwork > best.value.value.chainwork;
      if shouldPromote {
        var promoted: Result<(), ChainError>;
        if extendsBest {
          promoted := store.PromoteCanonicalTip(stored);
        } else {
          promoted := PromoteBestHash(hash);
        }
        if promoted.Err? {
          return Err(promoted.error);
        }
      }
      return Ok(stored);
    }

    /** The loop of a batch insertion: hashes met before are skipped, work is cached by bits. */
    method AcceptBatch(headers: seq<Header>) returns (r: Result<seq<StoredHeader>, ChainError>)
      ensures r == Accept(net, store.headers, headers)
    {
      hide ValidateInBatch, WorkFromBits;
      var accepted: seq<StoredHeader> := [];
      var pending: map<Hash, StoredHeader> := map[];
      var seen: set<Hash> := {};
      var workByBits: map<u32, nat> := map[];
      assert Known(pending) == store.headers && headers[0..] == headers;
      PrependNothing(Accept(net, store.headers, headers));
      for i := 0 to |headers|
        invariant forall h :: h in pending ==> h in seen
        invariant forall h :: h in seen ==> h in Known(pending)
        invariant forall b :: b in workByBits ==> WorkFromBits(b) == Ok(workByBits[b])
        invariant Accept(net, store.headers, headers) == Prepend(accepted, Accept(net, Known(pending), headers[i..]))
      {
        var header := headers[i];
        var hash := net.hashOf(header);
        assert headers[i..][0] == header && headers[i..][1..] == headers[i + 1..];
        var stored := store.GetHeader(hash);
        if hash in seen || stored.Some? {
          seen := seen + {hash};
          continue;
        }
        seen := seen + {hash};
        var next, cache := ValidateOne(header, pending, workByBits);
        workByBits := cache;
        if next.Err? {
          return Err(next.error);
        }
        ghost var before := Known(pending);
        PrependOne(accepted, next.value, Accept(net, before[hash := next.value], headers[i + 1..]));
        pending := pending[hash := next.value];
        assert Known(pending) == before[hash := next.value];
        accepted := accepted + [next.value];
      }
      assert headers[|headers|..] == [] && accepted + [] == accepted;
      return Ok(accepted);
    }

    method ValidateOne(header: Header, pending: map<Hash, StoredHeader>, workByBits: map<u32, nat>)
      returns (r: Result<StoredHeader, ChainError>, cache: map<u32, nat>)
      requires forall b :: b in workByBits ==> WorkFromBits(b) == Ok(workByBits[b])
      ensures r == ValidateInBatch(net, Known(pending), header)
      ensures r.Ok? ==> r.value.hash == net.hashOf(header)
      ensures forall b :: b in cache ==> WorkFromBits(b) == Ok(cache[b])
    {
      hide WorkFromBits, VerifyPow, CheckBits;
      cache := workByBits;
      var hash := net.hashOf(header);
      var parent := LookUp(header.prevBlock, pending);
      if parent.None? {
        return Err(UnknownParent), cache;
      }
      var bitsChecked := ValidateDifficultyBitsWithPending(header, parent.value, pending);
      if bitsChecked.Err? {
        return Err(bitsChecked.error), cache;
      }
      var powHolds := VerifyPow(hash, header.bits);
      if powHolds.Err? {
        return Err(PowFailure(powHolds.error)), cache;
      }
      if !powHolds.value {
        return Err(InvalidProofOfWork), cache;
      }
      if parent.value.height == U32_MAX {
        return Err(InvalidDifficultyWindow), cache;
      }
      var height := parent.value.height + 1;
      var checkpoint := CheckCheckpoint(net, height, hash);
      if checkpoint.Err? {
        return Err(checkpoint.error), cache;
      }
      if header.bits !in cache {
        var work := WorkFromBits(header.bits);
        if work.Err? {
          return Err(PowFailure(work.error)), cache;
        }
        cache := cache[header.bits := work.value];
      }
      return Ok(StoredHeader(hash, header, height, parent.value.chainwork + cache[header.bits])), cache;
    }

    /** `max_by` keeps the later of two equal elements. */
    method BestCandidate(accepted: seq<StoredHeader>) returns (top: nat)
      requires accepted != []
      ensures top == LastMaximum(accepted)
    {
      top := 0;
      for i := 1 to |accepted|
        invariant top < i
        invariant top == LastMaximum(accepted[..i])
      {
        assert accepted[..i + 1][..i] == accepted[..i];
        if accepted[i].chainwork >= accepted[top].chainwork {
          top := i;
        }
      }
      assert accepted[..|accepted|] == accepted;
    }

    method InsertHeaders(headers: seq<Header>) returns (r: Result<seq<StoredHeader>, ChainError>)
      modifies store
      ensures Update(store.View(), r) == HeaderTree.InsertHeaders(net, old(store.View()), headers)
    {
      hide Accept, PromoteBest, LastMaximum;
      r := AcceptBatch(headers);
      if r.Err? || r.value == [] {
        return;
      }
      var accepted := r.value;
      var best := BestHeader();
      if best.Err? {
        return Err(best.error);
      }
      var top := BestCandidate(accepted);
      var candidate := accepted[top];
      var shouldPromote := best.value.None? || candidate.chainwork > best.value.value.chainwork;
      var extendsBest := best.value.Some? && accepted[0].header.prevBlock == best.value.value.hash
        && Consecutive(accepted[..top + 1]);
      var put := store.PutHeaders(accepted);
      if put.Err? {
        return Err(put.error);
      }
      if shouldPromote {
        var promoted: Result<(), ChainError>;
        if extendsBest {
          promoted := store.PromoteCanonicalTips(accepted[..top + 1]);
        } else {
          promoted := PromoteBestHash(candidate.hash);
        }
        if promoted.Err? {
          return Err(promoted.error);
        }
      }
      return Ok(accepted);
    }
  }

  function Reversed<T>(s: seq<T>): (r: seq<T>)
    ensures |r| == |s| && forall i | 0 <= i < |s| :: r[i] == s[|s| - 1 - i]
  {
    if s == [] then [] else Reversed(s[1..]) + [s[0]]
  }

  lemma ReversedTwice<T>(s: seq<T>)
    ensures Reversed(Reversed(s)) == s
  {
  }

  ghost function Prepend<T>(front: seq<T>, r: Result<seq<T>, ChainError>): Result<seq<T>, ChainError> {
    match r case Ok(rest) => Ok(front + rest) case Err(e) => Err(e)
  }

  lemma PrependNothing<T>(r: Result<seq<T>, ChainError>)
    ensures Prepend([], r) == r
  {
    if r.Ok? { assert [] + r.value == r.value; }
  }

  lemma PrependOne<T>(front: seq<T>, x: T, r: Result<seq<T>, ChainError>)
    ensures Prepend(front, Prepend([x], r)) == Prepend(front + [x], r)
  {
    if r.Ok? { assert front + ([x] + r.value) == (front + [x]) + r.value; }
  }

  lemma SplitBelow(m: Headers, current: StoredHeader, above: seq<StoredHeader>)
    requires above != []
    ensures forall below: seq<StoredHeader> :: (below + [above[0]]) + above[1..] == below + above
  {
    forall below: seq<StoredHeader>
      ensures (below + [above[0]]) + above[1..] == below + above
    {
      assert above == [above[0]] + above[1..];
    }
  }
}
