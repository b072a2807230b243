/**
 * The block-header tree as a value (rust/crates/hns-chain/src/lib.rs): what each operation does
 * to the store, without saying how. The classes in HeaderChain.dfy are proved against these
 * functions; the lemmas about them are in ChainInvariant.dfy, BatchInsertion.dfy and Retarget.dfy.
 */
module HeaderTree {
  import opened Arithmetic
  import opened Prelude
  import opened Pow

  const POW_BITS: u32 := 0x1c00ffff
  const TARGET_SPACING: nat := 600
  const BLOCKS_PER_DAY: nat := 144
  const MIN_TIMESPAN: nat := 36 * TARGET_SPACING
  const MAX_TIMESPAN: nat := 576 * TARGET_SPACING

  /** `rest` holds the header fields that the chain rules never look at. */
  datatype Header = Header(time: u64, prevBlock: Hash, bits: u32, rest: seq<byte>)

  datatype StoredHeader = StoredHeader(hash: Hash, header: Header, height: u32, chainwork: nat)

  datatype Policy = Mainnet | Permissive

  /** What the chain is built over: the block hash and the checkpoint table stay uninterpreted. */
  datatype Network = Network(
    policy: Policy, hashOf: Header -> Hash, genesis: Header, checkpoint: nat -> Option<Hash>)

  datatype ChainError =
    | InvalidGenesisHeader
    | UnknownParent
    | DuplicateHeader
    | MissingBestHeader
    | InvalidDifficultyBits
    | InvalidDifficultyWindow
    | InvalidProofOfWork
    | InvalidCheckpoint
    | PowFailure(error: PowError)

  type Headers = map<Hash, StoredHeader>

  datatype Store = Store(headers: Headers, canonical: map<nat, Hash>, best: Option<Hash>)

  /** What an operation leaves behind and what it returns. */
  datatype Update<+T> = Update(store: Store, result: Result<T, ChainError>)

  function LiftPow<T>(r: Result<T, PowError>): Result<T, ChainError> {
    match r case Ok(v) => Ok(v) case Err(e) => Err(PowFailure(e))
  }

  // ---------------------------------------------------------------- walking towards genesis

  function Previous(m: Headers, s: StoredHeader): (r: Result<StoredHeader, ChainError>)
    ensures r.Ok? ==> r.value.height + 1 == s.height
  {
    if s.header.prevBlock !in m then Err(UnknownParent)
    else
      var parent := m[s.header.prevBlock];
      if parent.height + 1 != s.height then Err(InvalidDifficultyWindow) else Ok(parent)
  }

  function Ancestor(m: Headers, s: StoredHeader, height: nat): (r: Result<StoredHeader, ChainError>)
    ensures r.Ok? ==> r.value.height == height
    decreases s.height
  {
    if height > s.height then Err(InvalidDifficultyWindow)
    else if height == s.height then Ok(s)
    else
      var parent :- Previous(m, s);
      Ancestor(m, parent, height)
  }

  /** From a header down to height 0, listed from height 0 up. */
  function ChainTo(m: Headers, s: StoredHeader): (r: Result<seq<StoredHeader>, ChainError>)
    ensures r.Ok? ==> r.value != []
    decreases s.height
  {
    if s.height == 0 then Ok([s])
    else
      var parent :- Previous(m, s);
      var chain :- ChainTo(m, parent);
      Ok(chain + [s])
  }

  function ChainToHash(m: Headers, hash: Hash): (r: Result<seq<StoredHeader>, ChainError>)
    ensures r.Ok? ==> r.value != []
  {
    if hash !in m then Err(MissingBestHeader) else ChainTo(m, m[hash])
  }

  // ---------------------------------------------------------------- difficulty

  /** The middle one of three headers sorted by time, ties in the given order. */
  function MedianByTime(x: StoredHeader, y: StoredHeader, z: StoredHeader): StoredHeader {
    var x' := if y.header.time < x.header.time then y else x;
    var y' := if y.header.time < x.header.time then x else y;
    if z.header.time < x'.header.time then x'
    else if z.header.time < y'.header.time then z
    else y'
  }

  function Suitable(m: Headers, z: StoredHeader): Result<StoredHeader, ChainError> {
    var y :- Previous(m, z);
    var x :- Previous(m, y);
    Ok(MedianByTime(x, y, z))
  }

  function Clamp(t: nat, low: nat, high: nat): nat
    requires low <= high
  {
    if t < low then low else if t > high then high else t
  }

  function Timespan(first: StoredHeader, last: StoredHeader): (t: nat)
    ensures MIN_TIMESPAN <= t <= MAX_TIMESPAN
  {
    var elapsed := if last.header.time < first.header.time then 0 else last.header.time - first.header.time;
    Clamp(elapsed, MIN_TIMESPAN, MAX_TIMESPAN)
  }

  /** The work that the window did, scaled to the target spacing. */
  function AdjustedWork(first: StoredHeader, last: StoredHeader): nat
    requires first.chainwork <= last.chainwork
  {
    Quotient((last.chainwork - first.chainwork) * TARGET_SPACING, Timespan(first, last))
  }

  function LimitTarget(): Result<nat, PowError> { DecodeCompact(POW_BITS) }

  function BitsForWork(work: nat): Result<u32, ChainError> {
    if work == 0 then Ok(POW_BITS)
    else
      TargetForWorkRange(work);
      match TargetForWork(work)
      case Err(e) => Err(PowFailure(e))
      case Ok(target) =>
        match LimitTarget()
        case Err(e) => Err(PowFailure(e))
        case Ok(limit) => Ok(if target > limit then POW_BITS else EncodeCompact(target))
  }

  function RetargetBits(first: StoredHeader, last: StoredHeader): Result<u32, ChainError> {
    if last.height <= first.height || last.chainwork < first.chainwork then Err(InvalidDifficultyWindow)
    else BitsForWork(AdjustedWork(first, last))
  }

  function ExpectedBits(m: Headers, parent: StoredHeader): Result<u32, ChainError> {
    if parent.height < BLOCKS_PER_DAY + 2 then Ok(POW_BITS)
    else
      var last :- Suitable(m, parent);
      var ancestor :- Ancestor(m, parent, parent.height - BLOCKS_PER_DAY);
      var first :- Suitable(m, ancestor);
      RetargetBits(first, last)
  }

  // ---------------------------------------------------------------- validation

  function CheckBits(net: Network, m: Headers, header: Header, parent: StoredHeader): Result<(), ChainError> {
    if net.policy.Permissive? then Ok(())
    else
      var expected :- ExpectedBits(m, parent);
      if header.bits != expected then Err(InvalidDifficultyBits) else Ok(())
  }

  function CheckPow(hash: Hash, bits: u32): Result<(), ChainError> {
    var holds :- LiftPow(VerifyPow(hash, bits));
    if holds then Ok(()) else Err(InvalidProofOfWork)
  }

  function CheckCheckpoint(net: Network, height: nat, hash: Hash): Result<(), ChainError> {
    if net.policy.Mainnet? && net.checkpoint(height).Some? && net.checkpoint(height).value != hash
    then Err(InvalidCheckpoint)
    else Ok(())
  }

  /** The checks of a single insertion, in their order. */
  function Validate(net: Network, m: Headers, header: Header): Result<StoredHeader, ChainError> {
    if header.prevBlock !in m then Err(UnknownParent)
    else
      var parent, hash := m[header.prevBlock], net.hashOf(header);
      if parent.height == U32_MAX then Err(InvalidDifficultyWindow)
      else
        var _ :- CheckBits(net, m, header, parent);
        var _ :- CheckPow(hash, header.bits);
        var _ :- CheckCheckpoint(net, parent.height + 1, hash);
        var work :- LiftPow(WorkFromBits(header.bits));
        Ok(StoredHeader(hash, header, parent.height + 1, parent.chainwork + work))
  }

  /** The checks of a batch insertion: the height bound comes after the proof of work. */
  function ValidateInBatch(net: Network, m: Headers, header: Header): Result<StoredHeader, ChainError> {
    if header.prevBlock !in m then Err(UnknownParent)
    else
      var parent, hash := m[header.prevBlock], net.hashOf(header);
      var _ :- CheckBits(net, m, header, parent);
      var _ :- CheckPow(hash, header.bits);
      if parent.height == U32_MAX then Err(InvalidDifficultyWindow)
      else
        var _ :- CheckCheckpoint(net, parent.height + 1, hash);
        var work :- LiftPow(WorkFromBits(header.bits));
        Ok(StoredHeader(hash, header, parent.height + 1, parent.chainwork + work))
  }

  // ---------------------------------------------------------------- the store

  function PutHeader(st: Store, s: StoredHeader): Update<()> {
    if s.hash in st.headers then Update(st, Err(DuplicateHeader))
    else Update(st.(headers := st.headers[s.hash := s]), Ok(()))
  }

  function PutHeaders(st: Store, hs: seq<StoredHeader>): Update<()>
    decreases |hs|
  {
    if hs == [] then Update(st, Ok(()))
    else
      var put := PutHeader(st, hs[0]);
      if put.result.Err? then put else PutHeaders(put.store, hs[1..])
  }

  function BestHeader(st: Store): Result<Option<StoredHeader>, ChainError> {
    if st.best.None? then Ok(None)
    else if st.best.value in st.headers then Ok(Some(st.headers[st.best.value]))
    else Err(MissingBestHeader)
  }

  function PromoteTip(st: Store, s: StoredHeader): Update<()> {
    if s.hash !in st.headers then Update(st, Err(MissingBestHeader))
    else Update(st.(canonical := st.canonical[s.height as nat := s.hash], best := Some(s.hash)), Ok(()))
  }

  function PromoteTips(st: Store, hs: seq<StoredHeader>): Update<()>
    decreases |hs|
  {
    if hs == [] then Update(st, Ok(()))
    else
      var promoted := PromoteTip(st, hs[0]);
      if promoted.result.Err? then promoted else PromoteTips(promoted.store, hs[1..])
  }

  /** Writing headers into a height index one after another. */
  function IndexHeaders(canonical: map<nat, Hash>, hs: seq<StoredHeader>): map<nat, Hash> {
    if hs == [] then canonical
    else
      var last := hs[|hs| - 1];
      IndexHeaders(canonical, hs[..|hs| - 1])[last.height as nat := last.hash]
  }

  function ReplaceCanonical(st: Store, hs: seq<StoredHeader>): Update<()> {
    if hs == [] || exists i | 0 <= i < |hs| :: hs[i].hash !in st.headers then Update(st, Err(MissingBestHeader))
    else Update(st.(canonical := IndexHeaders(map[], hs), best := Some(hs[|hs| - 1].hash)), Ok(()))
  }

  /** The full rebuild of the height index. */
  function PromoteBest(st: Store, hash: Hash): Update<()> {
    match ChainToHash(st.headers, hash)
    case Err(e) => Update(st, Err(e))
    case Ok(chain) => ReplaceCanonical(st, chain)
  }

  function Returning<T>(u: Update<()>, value: T): Update<T> {
    match u.result
    case Ok(_) => Update(u.store, Ok(value))
    case Err(e) => Update(u.store, Err(e))
  }

  // ---------------------------------------------------------------- insertion

  function InsertGenesis(net: Network, st: Store, header: Header): Update<StoredHeader> {
    if net.policy.Mainnet? && header != net.genesis then Update(st, Err(InvalidGenesisHeader))
    else match LiftPow(WorkFromBits(header.bits))
      case Err(e) => Update(st, Err(e))
      case Ok(work) =>
        var stored := StoredHeader(net.hashOf(header), header, 0, work);
        var put := PutHeader(st, stored);
        if put.result.Err? then Returning(put, stored)
        else Returning(PromoteBest(put.store, stored.hash), stored)
  }

  function InsertHeader(net: Network, st: Store, header: Header): Update<StoredHeader> {
    match Validate(net, st.headers, header)
    case Err(e) => Update(st, Err(e))
    case Ok(stored) =>
      var put := PutHeader(st, stored);
      if put.result.Err? then Returning(put, stored)
      else match BestHeader(put.store)
        case Err(e) => Update(put.store, Err(e))
        case Ok(best) =>
          if best.Some? && stored.chainwork <= best.value.chainwork then Update(put.store, Ok(stored))
          else if best.Some? && stored.header.prevBlock == best.value.hash then
            Returning(PromoteTip(put.store, stored), stored)
          else Returning(PromoteBest(put.store, stored.hash), stored)
  }

  /** The new headers of a batch, each validated over the store and its accepted predecessors. */
  function Accept(net: Network, m: Headers, headers: seq<Header>): Result<seq<StoredHeader>, ChainError>
    decreases |headers|
  {
    if headers == [] then Ok([])
    else if net.hashOf(headers[0]) in m then Accept(net, m, headers[1..])
    else
      var stored :- ValidateInBatch(net, m, headers[0]);
      var rest :- Accept(net, m[stored.hash := stored], headers[1..]);
      Ok([stored] + rest)
  }

  /** The last position that has the greatest chainwork. */
  function LastMaximum(hs: seq<StoredHeader>): (i: nat)
    requires hs != []
    ensures i < |hs|
    ensures forall k | 0 <= k < |hs| :: hs[k].chainwork <= hs[i].chainwork
    ensures forall k | i < k < |hs| :: hs[k].chainwork < hs[i].chainwork
  {
    var n := |hs| - 1;
    if n == 0 then 0
    else
      var i := LastMaximum(hs[..n]);
      assert forall k | 0 <= k < n :: hs[..n][k] == hs[k];
      if hs[n].chainwork >= hs[i].chainwork then n else i
  }

  /** Each header but the first follows the one before it. */
  predicate Consecutive(hs: seq<StoredHeader>) {
    forall i | 0 < i < |hs| :: hs[i].header.prevBlock == hs[i - 1].hash
  }

  /** Promotion after a batch, given the best header from before it. */
  function PromoteBatch(st: Store, best: Option<StoredHeader>, accepted: seq<StoredHeader>): Update<()>
    requires accepted != []
  {
    var top := LastMaximum(accepted);
    if best.Some? && accepted[top].chainwork <= best.value.chainwork then Update(st, Ok(()))
    else if best.Some? && accepted[0].header.prevBlock == best.value.hash && Consecutive(accepted[..top + 1]) then
      PromoteTips(st, accepted[..top + 1])
    else PromoteBest(st, accepted[top].hash)
  }

  function InsertHeaders(net: Network, st: Store, headers: seq<Header>): Update<seq<StoredHeader>> {
    match Accept(net, st.headers, headers)
    case Err(e) => Update(st, Err(e))
    case Ok(accepted) =>
      if accepted == [] then Update(st, Ok(accepted))
      else match BestHeader(st)
        case Err(e) => Update(st, Err(e))
        case Ok(best) =>
          var put := PutHeaders(st, accepted);
          if put.result.Err? then Returning(put, accepted)
          else Returning(PromoteBatch(put.store, best, accepted), accepted)
  }
}
