/**
 * The rules that every stored header obeys, said from its hash, its bits and its path, and exactly
 * which headers may join a store (rust/crates/hns-chain/src/lib.rs).
 */
module ChainRules {
  import opened Prelude
  import opened Pow
  import opened HeaderTree
  import opened ChainInvariant
  import opened BatchInsertion
  import opened Retarget
  import opened DifficultyRule

  /** The bits stand for a nonzero target below 2^256, and the hash, as a number, is no larger. */
  ghost predicate MeetsTarget(hash: Hash, bits: u32) {
    DecodeCompact(bits).Ok? && BigEndian(hash) <= DecodeCompact(bits).value
  }

  /** The stored path ends at the parent and demands these bits of its next header. */
  ghost predicate Demanding(m: Headers, path: seq<StoredHeader>, parent: Hash, bits: u32) {
    IsPath(m, path) && path[|path| - 1].hash == parent && Demands(path, bits)
  }

  /** Proof of work; and on mainnet the demanded bits and the checkpoint of that height, if there is one. */
  ghost predicate Permitted(net: Network, m: Headers, header: Header, height: nat) {
    && MeetsTarget(net.hashOf(header), header.bits)
    && (net.policy.Mainnet? ==>
          && (net.checkpoint(height).Some? ==> net.checkpoint(height).value == net.hashOf(header))
          && exists path :: Demanding(m, path, header.prevBlock, header.bits))
  }

  /** Every header above height 0 is permitted where it stands. */
  ghost predicate Lawful(net: Network, m: Headers) {
    forall h | h in m && m[h].height > 0 :: Permitted(net, m, m[h].header, m[h].height)
  }

  // ---------------------------------------------------------------- validation is permission

  lemma PowIff(hash: Hash, bits: u32)
    ensures CheckPow(hash, bits).Ok? && WorkFromBits(bits).Ok? <==> MeetsTarget(hash, bits)
  {
    if DecodeCompact(bits).Ok? {
      VerifyPowDecoded(hash, bits);
    }
    hide VerifyPow;
  }

  lemma BitsIff(net: Network, m: Headers, header: Header)
    requires Linked(net, m) && header.prevBlock in m
    ensures CheckBits(net, m, header, m[header.prevBlock]).Ok?
      <==> (net.policy.Mainnet? ==> exists path :: Demanding(m, path, header.prevBlock, header.bits))
  {
    hide ExpectedBits, Demands, Linked;
    var h := header.prevBlock;
    ParentOf(net, m, h);
    ChainToIsPath(net, m, h);
    var own := ChainTo(m, m[h]).value;
    forall path: seq<StoredHeader> | IsPath(m, path) && path[|path| - 1].hash == h
      ensures ExpectedBits(m, m[h]) == Ok(header.bits) <==> Demands(path, header.bits)
    {
      ExpectedBitsIff(net, m, h, path, header.bits);
    }
    if ExpectedBits(m, m[h]) == Ok(header.bits) {
      assert Demanding(m, own, h, header.bits);
    }
  }

  /** A header validates exactly if its parent is stored below the height limit and it is permitted as its child. */
  lemma ValidIff(net: Network, m: Headers, header: Header)
    requires Linked(net, m)
    ensures Validate(net, m, header).Ok? <==>
      && header.prevBlock in m && m[header.prevBlock].height < 0xffff_ffff
      && Permitted(net, m, header, m[header.prevBlock].height + 1)
    ensures ValidateInBatch(net, m, header).Ok? <==> Validate(net, m, header).Ok?
  {
    ValidateOrderIrrelevant(net, m, header);
    if header.prevBlock in m {
      PowIff(net.hashOf(header), header.bits);
      BitsIff(net, m, header);
    }
    hide Linked, CheckBits, CheckPow, WorkFromBits, MeetsTarget, Demanding;
  }

  ghost predicate SomeBitsDemanded(m: Headers, parent: Hash) {
    exists path, bits :: Demanding(m, path, parent, bits)
  }

  /** On mainnet: no bits can be demanded, or other ones are. */
  ghost function BitsRefusal(net: Network, m: Headers, header: Header): Option<ChainError> {
    if net.policy.Permissive? then None
    else if !SomeBitsDemanded(m, header.prevBlock) then Some(PowFailure(ZeroTarget))
    else if exists path :: Demanding(m, path, header.prevBlock, header.bits) then None
    else Some(InvalidDifficultyBits)
  }

  /** The hash is compared even with a target whose mantissa has been moved out. */
  function PowRefusal(hash: Hash, bits: u32): Option<ChainError> {
    var target := Shifted(Mantissa(bits), Exponent(bits));
    if SignFlagged(bits) then Some(PowFailure(NegativeTarget))
    else if Mantissa(bits) == 0 then Some(PowFailure(ZeroTarget))
    else if target >= TWO_256 then Some(PowFailure(Overflow))
    else if BigEndian(hash) > target then Some(InvalidProofOfWork)
    else None
  }

  function CheckpointRefusal(net: Network, height: nat, hash: Hash): Option<ChainError> {
    if net.policy.Mainnet? && net.checkpoint(height) != None && net.checkpoint(height) != Some(hash) then Some(InvalidCheckpoint)
    else None
  }

  /** Such a target comes to light only here. */
  function WorkRefusal(bits: u32): Option<ChainError> {
    if Shifted(Mantissa(bits), Exponent(bits)) == 0 then Some(PowFailure(ZeroTarget)) else None
  }

  function Refused(refusal: Option<ChainError>): Result<(), ChainError> {
    if refusal.Some? then Err(refusal.value) else Ok(())
  }

  lemma SomeBitsIff(net: Network, m: Headers, h: Hash)
    requires Linked(net, m) && h in m
    ensures SomeBitsDemanded(m, h) <==> ExpectedBits(m, m[h]).Ok?
    ensures ExpectedBits(m, m[h]).Err? ==> ExpectedBits(m, m[h]) == Err(PowFailure(ZeroTarget))
  {
    if m[h].height >= 146 {
      RetargetFailsOnlyOnItsTarget(net, m, h);
    }
    if ExpectedBits(m, m[h]).Ok? {
      SomethingDemanded(net, m, h);
    } else {
      NothingDemanded(net, m, h);
    }
  }

  lemma SomethingDemanded(net: Network, m: Headers, h: Hash)
    requires Linked(net, m) && h in m && ExpectedBits(m, m[h]).Ok?
    ensures SomeBitsDemanded(m, h)
  {
    hide ExpectedBits, Demands, Linked;
    ParentOf(net, m, h);
    ChainToIsPath(net, m, h);
    var own, bits := ChainTo(m, m[h]).value, ExpectedBits(m, m[h]).value;
    ExpectedBitsIff(net, m, h, own, bits);
    assert Demanding(m, own, h, bits);
  }

  lemma BitsReason(net: Network, m: Headers, header: Header)
    requires Linked(net, m) && header.prevBlock in m
    ensures CheckBits(net, m, header, m[header.prevBlock]) == Refused(BitsRefusal(net, m, header))
  {
    BitsIff(net, m, header);
    SomeBitsIff(net, m, header.prevBlock);
    hide ExpectedBits, Demanding, Linked, SomeBitsDemanded;
  }

  lemma NothingDemanded(net: Network, m: Headers, h: Hash)
    requires Linked(net, m) && h in m && ExpectedBits(m, m[h]).Err?
    ensures !SomeBitsDemanded(m, h)
  {
    hide ExpectedBits, Demands, Linked;
    ParentOf(net, m, h);
    forall path, bits | Demanding(m, path, h, bits)
      ensures false
    {
      ExpectedBitsIff(net, m, h, path, bits);
    }
  }

  lemma PowReason(hash: Hash, bits: u32)
    ensures CheckPow(hash, bits) == Refused(PowRefusal(hash, bits))
    ensures CheckPow(hash, bits).Ok? ==>
      if WorkRefusal(bits).Some? then LiftPow(WorkFromBits(bits)) == Err(WorkRefusal(bits).value) else WorkFromBits(bits).Ok?
  {
    VerifyPowRefines(hash, bits);
    hide VerifyPow, Shifted;
  }

  /** What a header is refused for, the first reason counting; a batch differs at the height limit alone. */
  lemma RefusalReason(net: Network, m: Headers, header: Header)
    requires Linked(net, m)
    ensures header.prevBlock !in m ==> Validate(net, m, header) == ValidateInBatch(net, m, header) == Err(UnknownParent)
    ensures header.prevBlock in m ==>
      var parent, hash, r := m[header.prevBlock], net.hashOf(header), Validate(net, m, header);
      var bits, pow := BitsRefusal(net, m, header), PowRefusal(hash, header.bits);
      var checkpoint, work := CheckpointRefusal(net, parent.height + 1, hash), WorkRefusal(header.bits);
      if parent.height == 0xffff_ffff then r == Err(InvalidDifficultyWindow)
      else
        && ValidateInBatch(net, m, header) == r
        && if bits.Some? then r == Err(bits.value)
           else if pow.Some? then r == Err(pow.value)
           else if checkpoint.Some? then r == Err(checkpoint.value)
           else if work.Some? then r == Err(work.value)
           else r.Ok?
  {
    if header.prevBlock in m {
      BitsReason(net, m, header);
      PowReason(net.hashOf(header), header.bits);
      CheckpointReason(net, m[header.prevBlock].height + 1, net.hashOf(header));
    }
    hide Linked, CheckBits, CheckPow, CheckCheckpoint, WorkFromBits, BitsRefusal, PowRefusal, CheckpointRefusal, WorkRefusal;
  }

  lemma CheckpointReason(net: Network, height: nat, hash: Hash)
    ensures CheckCheckpoint(net, height, hash) == Refused(CheckpointRefusal(net, height, hash))
  {
  }

  // ---------------------------------------------------------------- the rules are kept

  lemma PathStays(small: Headers, big: Headers, path: seq<StoredHeader>)
    requires Extends(big, small) && IsPath(small, path)
    ensures IsPath(big, path)
  {
  }

  lemma PermittedStays(net: Network, small: Headers, big: Headers, header: Header, height: nat)
    requires Extends(big, small) && Permitted(net, small, header, height)
    ensures Permitted(net, big, header, height)
  {
    hide MeetsTarget, Demands;
    if net.policy.Mainnet? {
      var path :| Demanding(small, path, header.prevBlock, header.bits);
      PathStays(small, big, path);
      assert Demanding(big, path, header.prevBlock, header.bits);
    }
  }

  /** A permitted child keeps a lawful store lawful. */
  lemma LawfulAfterPut(net: Network, m: Headers, header: Header)
    requires Linked(net, m) && OneRoot(m) && Lawful(net, m)
    requires ValidateInBatch(net, m, header).Ok? && net.hashOf(header) !in m
    ensures var s := ValidateInBatch(net, m, header).value; Lawful(net, m[s.hash := s])
  {
    var s := ValidateInBatch(net, m, header).value;
    ValidatedContinues(net, m, header);
    ValidIff(net, m, header);
    LinkedAfterPut(net, m, header);
    var m' := m[s.hash := s];
    hide Permitted, Linked, OneRoot, ValidateInBatch, WorkFromBits;
    forall h | h in m' && m'[h].height > 0
      ensures Permitted(net, m', m'[h].header, m'[h].height)
    {
      if h != s.hash {
        PermittedStays(net, m, m', m[h].header, m[h].height);
      } else {
        PermittedStays(net, m, m', header, s.height);
      }
    }
  }

  lemma {:induction false} LawfulAfterBatch(net: Network, m: Headers, headers: seq<Header>)
    requires Linked(net, m) && OneRoot(m) && Lawful(net, m) && Accept(net, m, headers).Ok?
    ensures Lawful(net, AddAll(m, Accept(net, m, headers).value))
    decreases |headers|
  {
    hide Linked, OneRoot, Lawful, ValidateInBatch;
    if headers != [] {
      if net.hashOf(headers[0]) in m {
        LawfulAfterBatch(net, m, headers[1..]);
      } else {
        var s := ValidateInBatch(net, m, headers[0]).value;
        ValidatedContinues(net, m, headers[0]);
        LinkedAfterPut(net, m, headers[0]);
        LawfulAfterPut(net, m, headers[0]);
        LawfulAfterBatch(net, m[s.hash := s], headers[1..]);
        assert Accept(net, m, headers).value[1..] == Accept(net, m[s.hash := s], headers[1..]).value;
      }
    }
  }

  /**
   * On a good store a header is inserted exactly if it is new, its parent is stored below the
   * height limit and it is permitted there; and what is inserted one by one or in a batch keeps
   * the store lawful.
   */
  lemma InsertIff(net: Network, st: Store, header: Header)
    requires Inv(net, st)
    ensures InsertHeader(net, st, header).result.Ok? <==>
      && net.hashOf(header) !in st.headers
      && header.prevBlock in st.headers && st.headers[header.prevBlock].height < 0xffff_ffff
      && Permitted(net, st.headers, header, st.headers[header.prevBlock].height + 1)
    ensures Lawful(net, st.headers) ==> Lawful(net, InsertHeader(net, st, header).store.headers)
  {
    InvParts(net, st);
    ValidIff(net, st.headers, header);
    InsertKeepsInv(net, st, header);
    ValidateOrderIrrelevant(net, st.headers, header);
    hide *;
    if net.hashOf(header) !in st.headers {
      InsertSucceeds(net, st, header);
      if Validate(net, st.headers, header).Ok? && Lawful(net, st.headers) {
        LawfulAfterPut(net, st.headers, header);
      }
    }
  }

  lemma BatchKeepsLaw(net: Network, st: Store, headers: seq<Header>)
    requires Inv(net, st) && Lawful(net, st.headers)
    ensures Lawful(net, InsertHeaders(net, st, headers).store.headers)
  {
    InvParts(net, st);
    BatchKeepsInv(net, st, headers);
    hide InsertHeaders, Inv, Linked, OneRoot, Lawful, Accept;
    if Accept(net, st.headers, headers).Ok? {
      LawfulAfterBatch(net, st.headers, headers);
    }
  }

  /** Every header that any run stores above the genesis has its work, its demanded bits and its checkpoint. */
  lemma {:induction false} RunKeepsLaw(net: Network, st: Store, requests: seq<Request>)
    requires Inv(net, st) && Lawful(net, st.headers)
    ensures Lawful(net, Run(net, st, requests).headers)
    decreases |requests|
  {
    hide Inv, Lawful, InsertHeader, InsertHeaders;
    if requests != [] {
      match requests[0] {
        case Single(header) =>
          InsertKeepsInv(net, st, header);
          InsertIff(net, st, header);
          RunKeepsLaw(net, InsertHeader(net, st, header).store, requests[1..]);
        case Batch(headers) =>
          BatchKeepsInv(net, st, headers);
          BatchKeepsLaw(net, st, headers);
          RunKeepsLaw(net, InsertHeaders(net, st, headers).store, requests[1..]);
      }
    }
  }

  /** From an accepted genesis on, in every store that is reached. */
  lemma ReachableStoresAreLawful(net: Network, genesis: Header, requests: seq<Request>)
    requires InsertGenesis(net, Store(map[], map[], None), genesis).result.Ok?
    ensures Lawful(net, Run(net, InsertGenesis(net, Store(map[], map[], None), genesis).store, requests).headers)
  {
    GenesisEstablishes(net, genesis);
    LoneRoot(net, genesis);
    hide Run, Inv, InsertGenesis, Lawful;
    RunKeepsLaw(net, InsertGenesis(net, Store(map[], map[], None), genesis).store, requests);
  }

  lemma LoneRoot(net: Network, genesis: Header)
    requires InsertGenesis(net, Store(map[], map[], None), genesis).result.Ok?
    ensures Lawful(net, InsertGenesis(net, Store(map[], map[], None), genesis).store.headers)
  {
    hide WorkFromBits, Permitted;
    GenesisOnStore(net, Store(map[], map[], None), genesis);
  }
}
