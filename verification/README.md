# A verified model of the Handshake browser's protocol cores

This project models the parts of the browser whose correctness depends on state, arithmetic or
interleaving, and proves what each of them promises. It is written in Dafny 4.11;
`dafny verify dfyconfig.toml` checks everything.

What is modelled, one module to a file:

- **Header chain.** `Pow` (compact targets, work and proof-of-work verification over 256-bit
  numbers), `HeaderTree` (what every store and chain operation computes), `ChainInvariant`,
  `BatchInsertion` and `Retarget` (what every run keeps, how a batch refines one-by-one insertion,
  the difficulty window), `DifficultyRule` and `ChainRules` (the demanded bits and all that a stored
  header obeys, said from its path), `HeaderChain` (the mutable store and chain, method by method),
  `StableSort` (the sort in its median window).
- **DNS messages.** `WireName` and `WireMessage` (names with compression pointers, messages and
  the normal form of their RDATA), `NameText` (names from text), `NameGrammar`, `TextGrammar` and
  `RecordForms` (what is read, octet by octet), `Base32Hex` and `SynthName`.
- **DNSSEC.** `CircularOrder` (canonical name order, circular intervals), `Rdata`, `TypeBitmaps` and
  `Svcb` (canonical RDATA, type bitmaps, SVCB records), `SignedData` and `SignedLayout` (the bytes a
  signature covers), `Signatures`, `Nsec3` with
  `Nsec3Soundness`, `Nsec3Completeness` and `Nsec3Delegation`, and `Nsec` with `NsecEncloser`,
  `NsecSigned` and `NsecWitness`. Hash functions and signature verification are arbitrary
  functions. The zone is arbitrary too: the assumption is only that signatures hold over nothing
  but bytes that the zone signed, and the proofs go from bytes to records to names.
- **Proxy lifecycle.** `ProxyMachine` (the admission state machine), `ProxyLifecycle` (the
  coordinator and its serial queue as steps, and the invariant of every interleaving),
  `ProxySettling` (why the system comes to rest), `ProxyService` (that every navigation is served)
  and `ProxyCoordinator` (the mutable coordinator).
- **Browser process.** `ProcessModel` (preparation, network switch, synchronisation and close
  against the serial background queue), `ProcessLedger` and `ProcessCallbacks` (where every runtime
  and every callback is, in every interleaving), `ProcessReplies` (what they are told, and why everything
  comes to an end) and `ProcessObject` (the mutable object).
- **Smaller cores.** `StatusMailbox`, `Cancellation`, `Der`. `Prelude` and `Arithmetic` are shared.

Mutable objects and loops of the source are classes, methods and loops here. Each is proved equal to
a specification function, and the properties are lemmas about those functions. What such a function
computes is said a second time without it, over octets, numbers, paths or runs, and the two are
proved to agree. Concurrent parts are
state machines whose runs are arbitrary sequences of steps; a step that is not possible in a state
leaves it alone, so that a statement about all sequences is a statement about all interleavings.

Where code and comments differ, or where the code does less than a reader may expect, the model
follows the code:

- A second genesis under the permissive policy resets the best tip (`ChainInvariant.SecondGenesis`
  says exactly when that loses maximal work).
- On a tie inside one batch the last header wins, one by one the first
  (`BatchInsertion.TieInBatchDiffers`).
- Adjusted work above 2^255 and up to 2^256 demands the bits 0, which no header can satisfy
  (`Retarget.DemandedBits`).
- `verify_pow` accepts the zero hash for bits that do not decode (`Pow.VerifyPowUnderflow`).
- The plain NSEC range test also accepts an empty non-terminal (`Nsec.CoveredNameExistsIff` gives
  the exact condition).
- The plain NSEC validators do not compare the label count of the RRSIG with the owner of the record,
  so a wildcard's record is accepted under any name that the wildcard expands to. An accepted set
  states entries of the zone exactly when the label counts agree (`NsecSigned.TruthfulIff`), and
  the range of an accepted record is right exactly when the record stands at its signed owner or
  inside its range (`NsecSigned.RangeIsSoundIff`). `NsecWitness.ExpandedRecordsDeceive` denies a
  name that exists.
- The plain NSEC name error takes the closest encloser from its caller. It is the true one exactly
  when it is the longer common ancestor of the name with the covering record's two names
  (`NsecEncloser.ClosestEncloserIff`, `NsecSigned.SignedNameErrorIsExact`);
  `NsecWitness.ShortEncloserDeceives` gives an input with a shorter one.
- The base32hex decoder accepts some texts that the encoder never produces
  (`Base32Hex.EncodeInvertsDecode` gives the exact condition).
- Closing during a preparation drops its callbacks (`ProcessCallbacks.OnlyCloseDrops`).
- The mailbox starts its sequence over at the end of its range (`StatusMailbox.WrapReusesSequences`).

## Model

| member | source | states |
|---|---|---|
| `Pow.CompactToTarget` | rust/crates/hns-core/src/pow.rs:105-132 | the decoder, with its exponent branches, yields the shifted mantissa or the error the closed form demands: sign flag, zero target, overflow of 256 bits |
| `Pow.TargetToCompact` | rust/crates/hns-core/src/pow.rs:157-181 | the byte-wise encoder yields the compact form defined by the byte length and the top three bytes of the target |
| `Pow.CompactRoundsDown` | rust/crates/hns-core/src/pow.rs:157-181 | for every target in [1, 2^256): the compact form decodes, never carries a sign flag, and decodes to at most the target and less than one mantissa unit below it |
| `Pow.CompactIsLargestBelow` | rust/crates/hns-core/src/pow.rs:157-181 | no compact number at most the target decodes to more than the encoder's choice |
| `Pow.CompactIsCanonical` | rust/crates/hns-core/src/pow.rs:157-181 | encoding the decoded value gives the same bits |
| `Pow.WorkTargetGalois` | rust/crates/hns-core/src/pow.rs:134-155 | a target is worth at least some work exactly when the target for that work exists and is at least that target |
| `Pow.WorkIsAntitone` | rust/crates/hns-core/src/pow.rs:134-141 | a larger target never demands more work |
| `Pow.WorkIsShare` | rust/crates/hns-core/src/pow.rs:134-141 | the work of a target is how often its hashes fit into all 2^256, rounded down |
| `Pow.CompactOctets` | rust/crates/hns-core/src/pow.rs:105-132 | the four octets of a compact form: a sign bit is refused, and otherwise the three low octets stand for themselves followed by as many zero octets as the exponent says |
| `Pow.WorkOfTargetOfWork` | rust/crates/hns-core/src/pow.rs:134-155 | work of the target of the work of a target is that work again, and the target in between is no smaller |
| `Pow.TargetForWorkRange` | rust/crates/hns-core/src/pow.rs:143-155 | a target exists exactly for work up to 2^256 and is nonzero exactly up to 2^255 |
| `Pow.TargetBytesFromCompact` | rust/crates/hns-core/src/pow.rs:187-216 | the byte array written branch by branch is the specified 32 bytes, or the specified error |
| `Pow.VerifyPowRefines` | rust/crates/hns-core/src/pow.rs:183-216 | for every 32-bit value the byte comparison is the big-integer comparison of the hash with the shifted mantissa, and the three error cases are exact |
| `Pow.VerifyPowDecoded` | rust/crates/hns-core/src/pow.rs:183-185 | whenever the bits decode, verification is "hash at most decoded target" |
| `Pow.VerifyPowUnderflow` | rust/crates/hns-core/src/pow.rs:183-216 | bits whose mantissa shifts out to zero do not decode, yet verification reports no error and accepts the zero hash alone |
| `ChainInvariant.ChainToIsPath` | rust/crates/hns-chain/src/lib.rs:896-917 | on a linked store the walk to any header succeeds and is the path from height 0, one header per height, and the stored chainwork is the sum of the work of its bits |
| `ChainInvariant.IndexIsBestPath` | rust/crates/hns-chain/src/lib.rs:195-213 | the height index holds exactly the headers of the genesis-to-best path and nothing above it |
| `ChainInvariant.TipPromotionIsRebuild` | rust/crates/hns-chain/src/lib.rs:185-213 | for a header extending the best one, writing one index entry equals replacing the whole index |
| `ChainInvariant.GenesisEstablishes` | rust/crates/hns-chain/src/lib.rs:548-561 | the first genesis of an empty store establishes the invariant |
| `ChainInvariant.InsertKeepsInv` | rust/crates/hns-chain/src/lib.rs:563-611 | an insertion that fails changes nothing; one that succeeds adds exactly the validated header, moves the best header only to strictly more work, and keeps heights, chainwork, maximality and index right, across reorganisations |
| `ChainInvariant.SecondGenesis` | rust/crates/hns-chain/src/lib.rs:548-561 | a second genesis is accepted exactly when it is new and allowed; it then becomes best whatever its work, so maximality survives exactly when nothing heavier was stored |
| `BatchInsertion.OneByOneFollowsAccept` | rust/crates/hns-chain/src/lib.rs:563-611 | inserting one by one and skipping known headers succeeds exactly when the batch validation does, and stores the same headers |
| `BatchInsertion.BatchKeepsInv` | rust/crates/hns-chain/src/lib.rs:613-700 | a batch is stored whole or not at all, and every promotion path (single tip, run of tips, rebuild) keeps the invariant |
| `BatchInsertion.BatchRefinesOneByOne` | rust/crates/hns-chain/src/lib.rs:613-700 | batch and one-by-one insertion agree on success, headers and best chainwork; the stores are equal exactly when nothing in the batch is heavier than the old tip or its heaviest header is unique |
| `BatchInsertion.LinearBatchIsUnique` | rust/crates/hns-chain/src/lib.rs:613-700 | for a linear batch the two stores are equal |
| `BatchInsertion.TieInBatchDiffers` | rust/crates/hns-chain/src/lib.rs:668-700 | two siblings of equal work: the batch ends on the last, one-by-one insertion on the first |
| `BatchInsertion.RunKeepsInv` | rust/crates/hns-chain/src/lib.rs:563-700 | after any sequence of single and batch insertions the invariant holds, no header was dropped or rewritten and the best work did not decrease |
| `BatchInsertion.ReachableStores` | rust/crates/hns-chain/src/lib.rs:548-700 | in every store reachable from an accepted genesis the index starts at that genesis and a full rebuild changes nothing |
| `Retarget.MedianIsMiddle` | rust/crates/hns-chain/src/lib.rs:848-860 | the header chosen among three is the middle one by time, with equal times in the order in which the window lists them |
| `Retarget.RetargetIsTotal` | rust/crates/hns-chain/src/lib.rs:799-894 | from parent height 146 up, on every linked chain, both windows exist, the later median is higher and heavier, and the demanded bits are those of the adjusted work: no missing ancestor, inverted window, negative work or division by zero |
| `Retarget.DemandedBits` | rust/crates/hns-chain/src/lib.rs:819-846 | bits are demanded exactly for adjusted work up to 2^256, and they decode to a nonzero target within the mainnet limit exactly up to 2^255 |
| `Retarget.MoreWorkIsHarder` | rust/crates/hns-chain/src/lib.rs:819-846 | more work in the window never makes the demanded target larger |
| `Retarget.RetargetFailsOnlyOnItsTarget` | rust/crates/hns-chain/src/lib.rs:799-846 | on a linked chain the only possible failure is the target conversion |
| `DifficultyRule.DemandedIff` | rust/crates/hns-chain/src/lib.rs:819-846 | the bits computed for two headers are those demanded by the seconds between them (at least 21600, at most 345600), the chainwork between them, a block every 600 seconds and the limit 0x1c00ffff |
| `DifficultyRule.ExpectedBitsIff` | rust/crates/hns-chain/src/lib.rs:799-860 | on the path to a parent the bits that the chain computes are exactly those demanded: the limit below height 146, and from then on what the medians of the last three headers and of the three headers 144 earlier say |
| `ChainRules.ValidIff` | rust/crates/hns-chain/src/lib.rs:563-585 | a header validates exactly if its parent is stored below the height limit, its hash as a number is at most the target of its bits, and on mainnet its path demands these bits and the checkpoint of its height, if any, is its hash |
| `ChainRules.RefusalReason` | rust/crates/hns-chain/src/lib.rs:563-585 | what a header is refused for, the first reason counting: bits, proof of work, checkpoint, work |
| `ChainRules.InsertIff` | rust/crates/hns-chain/src/lib.rs:563-611 | on a good store a header is inserted exactly if it is new and permitted as a child of its stored parent; a lawful store stays lawful |
| `ChainRules.BatchKeepsLaw` | rust/crates/hns-chain/src/lib.rs:613-700 | a batch keeps the store lawful |
| `ChainRules.RunKeepsLaw` | rust/crates/hns-chain/src/lib.rs:563-700 | after any sequence of insertions every header above height 0 has its proof of work, its demanded bits and its checkpoint |
| `ChainRules.ReachableStoresAreLawful` | rust/crates/hns-chain/src/lib.rs:548-700 | the same in every store reachable from an accepted genesis |
| `HeaderChain.MemoryHeaderStore.constructor` | rust/crates/hns-chain/src/lib.rs:51-55 | a new store is empty |
| `HeaderChain.MemoryHeaderStore.PutHeader` | rust/crates/hns-chain/src/lib.rs:168-175 | a header is added, or a duplicate is refused and nothing changes |
| `HeaderChain.MemoryHeaderStore.PutHeaders` | rust/crates/hns-chain/src/lib.rs:32-37 | the loop of the trait adds header after header and stops at the first failure |
| `HeaderChain.MemoryHeaderStore.PromoteCanonicalTip` | rust/crates/hns-chain/src/lib.rs:185-193 | one index entry and the best header are written |
| `HeaderChain.MemoryHeaderStore.PromoteCanonicalTips` | rust/crates/hns-chain/src/lib.rs:41-46 | the loop of the trait promotes tip after tip |
| `HeaderChain.MemoryHeaderStore.ReplaceCanonicalChain` | rust/crates/hns-chain/src/lib.rs:195-213 | the cleared and refilled index is that of the given chain |
| `HeaderChain.HeaderChain.AncestorWithPending` | rust/crates/hns-chain/src/lib.rs:862-878 | the walk over store and pending headers finds the ancestor the specification names |
| `StableSort.SortByTime` | rust/crates/hns-chain/src/lib.rs:848-860 | the array of candidates is sorted in place as specified |
| `StableSort.SortIsStable` | rust/crates/hns-chain/src/lib.rs:848-860 | the sorted sequence is in order of time and keeps the order of equal times, which makes it the stable sort |
| `StableSort.MiddleOfThree` | rust/crates/hns-chain/src/lib.rs:848-860 | the middle of three headers so sorted is the specified median |
| `HeaderChain.HeaderChain.SuitableBlockWithPending` | rust/crates/hns-chain/src/lib.rs:848-860 | the window of three is collected, sorted by time and its middle taken: the specified median or error |
| `HeaderChain.HeaderChain.ExpectedMainnetBitsWithPending` | rust/crates/hns-chain/src/lib.rs:799-817 | the demanded bits over store and pending headers together |
| `HeaderChain.HeaderChain.RetargetBits` | rust/crates/hns-chain/src/lib.rs:819-846 | the retarget arithmetic with its clamp and its error branches |
| `HeaderChain.HeaderChain.CanonicalChainTo` | rust/crates/hns-chain/src/lib.rs:896-917 | the backward loop and the reversal give the path from genesis, with its error cases |
| `HeaderChain.HeaderChain.InsertGenesis` | rust/crates/hns-chain/src/lib.rs:548-561 | result and new store of the genesis insertion |
| `HeaderChain.HeaderChain.InsertHeader` | rust/crates/hns-chain/src/lib.rs:563-611 | result and new store of a single insertion, with the order of its checks |
| `HeaderChain.HeaderChain.AcceptBatch` | rust/crates/hns-chain/src/lib.rs:613-660 | the validation loop with its pending map and work cache accepts exactly what validation against the growing store accepts |
| `HeaderChain.HeaderChain.InsertHeaders` | rust/crates/hns-chain/src/lib.rs:613-700 | result and new store of a batch insertion |
| `WireName.EncodeWire` | rust/crates/hns-core/src/dns.rs:196-206 | the loop appends the wire form of the name, or refuses a label that is too long |
| `WireName.ParseWire` | rust/crates/hns-core/src/dns.rs:104-165 | the cursor loop with compression pointers terminates on every byte string and computes the specified walk; its measure is jumps left, then bytes left |
| `WireName.ParseNameIsSound` | rust/crates/hns-core/src/dns.rs:104-165 | a parsed name ends past its start and within the message, is well formed, and encodes to at most 255 octets |
| `WireName.ParseInvertsEncode` | rust/crates/hns-core/src/dns.rs:104-206 | parsing at the position of an encoded name gives that name and its end, whatever surrounds it |
| `WireName.WireIsPrefixFree` | rust/crates/hns-core/src/dns.rs:196-206 | two names whose encodings stand at one position are the same name |
| `NameGrammar.ParseNameIff` | rust/crates/hns-core/src/dns.rs:104-165 | for every byte string the parser accepts exactly the names that stand there: labels behind their lengths, letters folded to lower case, at most 16 pointers whose low 14 bits say where the name goes on, 254 octets of labels |
| `NameGrammar.StandingNameIsRead` | rust/crates/hns-core/src/dns.rs:104-165 | a name that fits is read behind up to 16 pointers, and refused as an invalid pointer from the 17th on |
| `NameGrammar.PointerIsFollowed` | rust/crates/hns-core/src/dns.rs:104-165 | labels and then the octets 0xc0 + t/256 and t%256: the name goes on with what stands at t, and ends behind the two octets |
| `WireMessage.ParseDnsMessage` | rust/crates/hns-core/src/dns.rs:498-538 | the section loops compute the specified message or error |
| `WireMessage.EncodeDnsMessage` | rust/crates/hns-core/src/dns.rs:540-571 | the encoder computes the specified bytes, truncation and errors included |
| `WireMessage.NormalizeReachesNormal` | rust/crates/hns-core/src/dns.rs:601-661 | RDATA that normalises, at any position and type, comes out in normal form |
| `WireMessage.NormalRdataSurvives` | rust/crates/hns-core/src/dns.rs:601-661 | normal RDATA is left alone: at any position normalising it gives the same octets |
| `WireMessage.RecordRoundTrip` | rust/crates/hns-core/src/dns.rs:324-369 | a record in normal form is read back from its own encoding at any position |
| `WireMessage.NormalMessageRoundTrip` | rust/crates/hns-core/src/dns.rs:498-571 | a message in normal form that encodes is read back from its encoding |
| `WireMessage.ParseReachesNormalForm` | rust/crates/hns-core/src/dns.rs:498-571 | for every byte string that parses: if encoding the result succeeds, parsing that encoding gives the same message and encoding again the same bytes |
| `WireMessage.ParsedEncodesUnlessTooLong` | rust/crates/hns-core/src/dns.rs:540-571 | a parsed message fails to encode only for its total length or for a record too long once expanded |
| `RecordForms.MessageIff` | rust/crates/hns-core/src/dns.rs:498-538 | a message is read exactly if the counts in its header, within 16 questions and 2048 records, are those of the sections that stand behind it, in their order, with nothing behind them |
| `RecordForms.RecordIff` | rust/crates/hns-core/src/dns.rs:324-355 | a record is read exactly where a name stands and behind it type, class, TTL, length and so much RDATA |
| `RecordForms.UnpackedIff` | rust/crates/hns-core/src/dns.rs:601-661 | normalised RDATA: a CNAME is the one name that fills it, in an RRSIG a signer behind a pointer is written out, other RDATA is taken as it stands |
| `RecordForms.HeaderLayout` | rust/crates/hns-core/src/dns.rs:540-571 | an encoded message starts with its identifier, its flags and the four section counts |
| `RecordForms.RecordLayout` | rust/crates/hns-core/src/dns.rs:357-369 | an encoded record is its uncompressed name, type, class, TTL, length and RDATA, each at its place |
| `NameText.ParseText` | rust/crates/hns-core/src/dns.rs:171-194 | the text parser computes the specified labels or error |
| `NameText.FromAsciiInvertsJoin` | rust/crates/hns-core/src/dns.rs:171-194 | the dotted text of stored labels parses back to them exactly when they fit the length limit |
| `NameText.FromAsciiIsSound` | rust/crates/hns-core/src/dns.rs:171-194 | every name parsed from text has stored labels within the limit |
| `TextGrammar.FromAsciiIff` | rust/crates/hns-core/src/dns.rs:171-194 | a text is read as a name exactly if it is the labels with a dot between each two, in any case, with dots behind them and blanks around, and the name fits |
| `Base32Hex.EncodeStreaming` | rust/crates/hns-core/src/resource.rs:184-203 | the streaming encoder, which drops high bits of its 32-bit word, computes the base-32 digits of the whole input |
| `Base32Hex.DecodeStreaming` | rust/crates/hns-dnssec/src/lib.rs:1770-1792 | the streaming decoder with the same dropping word computes the specified bytes or failure |
| `Base32Hex.DecodeInvertsEncode` | rust/crates/hns-dnssec/src/lib.rs:1770-1792 | decoding inverts encoding on every byte string |
| `Base32Hex.EncodeIsInjective` | rust/crates/hns-core/src/resource.rs:184-203 | no two byte strings share an encoding |
| `Base32Hex.EncodeInvertsDecode` | rust/crates/hns-dnssec/src/lib.rs:1770-1792 | encoding inverts decoding exactly on lower-case text of a canonical length |
| `Base32Hex.EncodeKeepsOrder` | rust/crates/hns-core/src/resource.rs:184-203 | encodings of strings of one length sort as the strings do, over the digits 0-9 and a-v: hashed owner names sort as the hashes |
| `SynthName.SynthNameHoldsTheAddress` | rust/crates/hns-core/src/resource.rs:179-203 | the synthesised name has two labels, is well formed and decodes to its address |
| `CircularOrder.CircleCoversOnce` | rust/crates/hns-dnssec/src/lib.rs:1692-1705 | over any strict total order and sorted circle: an element is an owner exactly when no interval covers it, and no two intervals cover it |
| `CircularOrder.CanonicalNameCmp` | rust/crates/hns-dnssec/src/lib.rs:1875-1892 | the reverse label loop computes the canonical comparison |
| `CircularOrder.NameLessIsPrecedence` | rust/crates/hns-dnssec/src/lib.rs:1875-1892 | a name comes first exactly if, from the root down, its first different label is a proper prefix or has the smaller octet at the first difference, or it is an ancestor |
| `CircularOrder.NameLessIsStrictTotal` | rust/crates/hns-dnssec/src/lib.rs:1875-1892 | canonical name order is a strict total order |
| `CircularOrder.SubtreeIsInterval` | rust/crates/hns-dnssec/src/lib.rs:1875-1892 | a name and everything below it stand together in canonical order |
| `CircularOrder.NsecChainCoversOnce` | rust/crates/hns-dnssec/src/lib.rs:1842-1858 | on a sorted circular NSEC chain, wrap-around and single record included, every name is an owner or covered by exactly one record |
| `CircularOrder.Nsec3ChainCoversOnce` | rust/crates/hns-dnssec/src/lib.rs:1692-1705 | the same for hashes of one length |
| `Rdata.ValidateTypeBitMaps` | rust/crates/hns-dnssec/src/lib.rs:1794-1814 | the window loop accepts exactly the well-formed bitmaps |
| `Rdata.TypeBitMapsContain` | rust/crates/hns-dnssec/src/lib.rs:1816-1840 | the bitmap scan finds a type exactly when its bit is set |
| `TypeBitmaps.ValidIff` | rust/crates/hns-dnssec/src/lib.rs:1794-1814 | a bitmap is valid exactly if it is windows with rising numbers, each of 1 to 32 octets behind its number and length |
| `TypeBitmaps.HasTypeIff` | rust/crates/hns-dnssec/src/lib.rs:1816-1840 | a type is found exactly if the window of its high octet has the bit of its low octet, most significant bit first |
| `Rdata.CanonicalRdataIsStable` | rust/crates/hns-dnssec/src/lib.rs:1411-1506 | canonical RDATA is its own canonical form, for every type |
| `RecordForms.CanonicalIff` | rust/crates/hns-dnssec/src/lib.rs:1411-1506 | canonical RDATA type by type, said over the octets: which names are written out in lower case, what stays, and which types are refused |
| `RecordForms.RrsigIff` | rust/crates/hns-dnssec/src/lib.rs:346-400 | an RRSIG is read exactly from its fields at their offsets, the signer behind them and the signature; the signed part is all but the signature |
| `RecordForms.DnskeyReads` | rust/crates/hns-dnssec/src/lib.rs:287-315 | a DNSKEY is flags, protocol 3, algorithm and key; any other protocol is refused |
| `RecordForms.Nsec3Reads` | rust/crates/hns-dnssec/src/lib.rs:429-475 | an NSEC3 record is algorithm, flags, iterations, salt, next hash and bitmap, and is refused without a next hash or with an invalid bitmap |
| `Svcb.ParseUncompressedName` | rust/crates/hns-core/src/dns.rs:715-752 | the pointer-free name loop computes the specified name or error |
| `Svcb.ValidateMandatory` | rust/crates/hns-core/src/dns.rs:665-680 | the chunk loop accepts exactly nonempty lists of increasing, nonzero two-octet keys |
| `Svcb.ValidateAlpnIds` | rust/crates/hns-core/src/dns.rs:754-774 | the cursor loop accepts exactly nonempty lists of length-prefixed, nonempty identifiers |
| `Svcb.MandatoryIff` | rust/crates/hns-core/src/dns.rs:665-680 | a mandatory list is keys of two octets that rise strictly and are not 0 |
| `Svcb.ParamIff` | rust/crates/hns-core/src/dns.rs:663-713 | the value of each known parameter: none, a port, or one or more addresses of four or of sixteen octets |
| `Svcb.AlpnIff` | rust/crates/hns-core/src/dns.rs:754-774 | an ALPN list is nonempty identifiers behind their lengths |
| `RecordForms.UncompressedIff` | rust/crates/hns-core/src/dns.rs:715-752 | the parser without pointers accepts exactly the names that stand there without one |
| `Svcb.ParseSvcbRdata` | rust/crates/hns-core/src/dns.rs:373-411 | the parameter loop computes the specified record or error |
| `Svcb.ParsedSvcbIsWellFormed` | rust/crates/hns-core/src/dns.rs:373-411 | a parsed record has a well-formed target and strictly increasing, valid parameters |
| `Svcb.SvcbRoundTrip` | rust/crates/hns-dnssec/src/lib.rs:1478-1491 | every such record is read back from its encoding, which is its canonical RDATA |
| `Svcb.SameCanonicalSvcb` | rust/crates/hns-dnssec/src/lib.rs:1478-1491 | two RDATA strings have one canonical form exactly when they parse to the same record |
| `SignedData.EncodeLabels` | rust/crates/hns-dnssec/src/lib.rs:1402-1409 | the label loop writes the lower-cased labels with their lengths |
| `SignedData.CanonicalOwnerBytes` | rust/crates/hns-dnssec/src/lib.rs:1380-1400 | the owner as signed: wildcard restored from the label count, lower-cased, encoded |
| `SignedData.CanonicalRrset` | rust/crates/hns-dnssec/src/lib.rs:1337-1372 | the loop over the RRset collects the canonical owner and RDATA of every member and refuses what the specification refuses |
| `SignedData.SignedDataBytes` | rust/crates/hns-dnssec/src/lib.rs:1108-1130 | the records are sorted by canonical RDATA and the buffer built for a signature is the specified byte string |
| `SignedData.OrderDoesNotMatter` | rust/crates/hns-dnssec/src/lib.rs:1108-1130 | signed data succeeds and is the same for every permutation of the RRset |
| `SignedLayout.CoveredIsOrdered` | rust/crates/hns-dnssec/src/lib.rs:1108-1126 | what is signed are the canonical RDATA of the records, each once, a proper prefix or the smaller octet at the first difference first |
| `SignedLayout.CoveredIff` | rust/crates/hns-dnssec/src/lib.rs:1337-1372 | an RRset is fit to be signed exactly if its records share the type covered, the class and the signed owner, and no two have the same canonical RDATA |
| `SignedLayout.SignedIff` | rust/crates/hns-dnssec/src/lib.rs:1108-1117 | it has signed bytes exactly from inception to expiration, both included |
| `SignedLayout.SignedBytesLayout` | rust/crates/hns-dnssec/src/lib.rs:1108-1130 | the signed bytes: the signed part of the RRSIG, then every record in canonical order with the signed owner, type, class, original TTL, length and RDATA, each at its place |
| `SignedData.TtlsDoNotMatter` | rust/crates/hns-dnssec/src/lib.rs:1108-1130 | the records' own TTLs do not enter the signed bytes |
| `SignedData.SignedBytesDetermineTheRrset` | rust/crates/hns-dnssec/src/lib.rs:1108-1130 | two well-formed RRsets, each with an RRSIG, have equal signed bytes exactly when they agree on the RRSIG prefix, canonical owner, class and canonical RDATA set |
| `SignedData.SharedBytesShareRecords` | rust/crates/hns-dnssec/src/lib.rs:1337-1372 | a record of one RRset has a twin in any RRset with the same signed bytes: same type, canonical owner and canonical RDATA |
| `Signatures.ComputeKeyTag` | rust/crates/hns-dnssec/src/lib.rs:491-502 | the 32-bit accumulator never overflows and gives the key tag |
| `Signatures.TagIsWordSum` | rust/crates/hns-dnssec/src/lib.rs:491-502 | the key tag is the sum of the 16-bit words of the RDATA, a last single octet counting as a high one, with its carry added once |
| `Signatures.VerifiedIff` | rust/crates/hns-dnssec/src/lib.rs:1132-1156 | a key verifies an RRset with an RRSIG exactly if it is a zone key of that algorithm and tag and the signature holds over the signed data |
| `Signatures.RrsigsIff` | rust/crates/hns-dnssec/src/lib.rs:689-702 | the RRSIGs that are tried are those at the owner and class of the RRset, and no others |
| `Signatures.AcceptedIsSigned` | rust/crates/hns-dnssec/src/lib.rs:680-729 | a Secure RRset has a signature among the given ones, of the given signer and over its type, that one of the given keys verifies over its signed data |
| `Signatures.SecureIffVerified` | rust/crates/hns-dnssec/src/lib.rs:680-729 | the status is Secure exactly when some key verifies some signature of the signer over the type |
| `Signatures.RefusedFor` | rust/crates/hns-dnssec/src/lib.rs:680-729 | otherwise the error is that of the first RRSIG and key that fail, in this order, and the status is Bogus if none fails |
| `Signatures.SearchSignatures` | rust/crates/hns-dnssec/src/lib.rs:680-729 | the nested search with its deferred error computes the specified status or error |
| `Signatures.OneSignatureSuffices` | rust/crates/hns-dnssec/src/lib.rs:680-729 | one good signature is enough, whatever errors the other signatures and keys cause |
| `Nsec3.ComputeNsec3Hash` | rust/crates/hns-dnssec/src/lib.rs:1076-1106 | the iteration loop computes the iterated hash, with its algorithm and iteration limits |
| `Nsec3.Nsec3HashIsLastRound` | rust/crates/hns-dnssec/src/lib.rs:1076-1106 | the hash is the last of the digests of section 5 of RFC 5155, the first over name and salt and each other over the one before and the salt; other algorithms, more than 2500 iterations and long labels are refused |
| `Nsec3.CollectProofs` | rust/crates/hns-dnssec/src/lib.rs:1610-1630 | the loop over the RRset keeps exactly the usable records with decodable owner hashes |
| `Nsec3.ProofsAreTheEvidence` | rust/crates/hns-dnssec/src/lib.rs:1610-1630 | the proof records are those of SHA-1, without unknown flags, one decodable label below the zone and with hashes of one length |
| `Nsec3.MatchingIff` | rust/crates/hns-dnssec/src/lib.rs:1632-1646 | a record that matches is found exactly if one of the expected parameters does, wherever it stands |
| `Nsec3.CoveringIff` | rust/crates/hns-dnssec/src/lib.rs:1648-1662 | a record that covers is found exactly if one of the expected parameters does |
| `Nsec3.NoDataInIff` | rust/crates/hns-dnssec/src/lib.rs:825-849 | no data is Secure exactly if some record matches the name and lacks the type |
| `Nsec3Soundness.AcceptedStatesLinks` | rust/crates/hns-dnssec/src/lib.rs:1508-1525 | if signatures hold only over what the zone signed, every NSEC3 record of an accepted RRset states a link of one of its hash chains |
| `Nsec3Soundness.ClosestEncloserIsSound` | rust/crates/hns-dnssec/src/lib.rs:1558-1608 | a valid encloser proof names an existing name whose bitmap has no DNAME and no NS without SOA, and without opt-out the true closest encloser, with a link of the same chain over the next closer name |
| `Nsec3Soundness.NameErrorIsSound` | rust/crates/hns-dnssec/src/lib.rs:851-898 | name error (section 8.4 of RFC 5155): Secure implies that the encloser is the true one, the query name is absent and its wildcard is absent, all shown by one chain |
| `Nsec3Soundness.UndecidedIsNotSecure` | rust/crates/hns-dnssec/src/lib.rs:1558-1608 | a proof that stops early is never reported as Secure |
| `Nsec3Soundness.WildcardNoDataIsSound` | rust/crates/hns-dnssec/src/lib.rs:947-996 | Secure implies that the right wildcard exists and lacks the type, shown by one chain |
| `Nsec3Soundness.WildcardAnswerIsSound` | rust/crates/hns-dnssec/src/lib.rs:1048-1074 | Secure implies that nothing between the encloser and the query exists |
| `Nsec3Soundness.NoDataIsSound` | rust/crates/hns-dnssec/src/lib.rs:825-849 | Secure implies that the name exists and lacks the type and CNAME |
| `Nsec3Completeness.EvidenceExists` | rust/crates/hns-dnssec/src/lib.rs:1664-1705 | in a chain without opt-out every existing name has its link and every other name is covered |
| `Nsec3Completeness.EncloserAnswer` | rust/crates/hns-dnssec/src/lib.rs:1558-1608 | the zone's own records prove an encloser exactly if it speaks for the names below it |
| `Nsec3Completeness.NameErrorAnswer` | rust/crates/hns-dnssec/src/lib.rs:851-898 | the zone's own records for encloser, next closer name and wildcard: Secure, or Insecure exactly where one of the two spans opts out |
| `Nsec3Completeness.NoDataAnswer` | rust/crates/hns-dnssec/src/lib.rs:825-849 | one record of the zone: Secure exactly if it is the name's and lacks the type and CNAME |
| `Nsec3Completeness.WildcardNoDataAnswer` | rust/crates/hns-dnssec/src/lib.rs:947-996 | the zone's own records: Insecure exactly under opt-out, and otherwise Secure exactly if the wildcard lacks the type and CNAME |
| `Nsec3Completeness.WildcardProofAnswer` | rust/crates/hns-dnssec/src/lib.rs:1048-1074 | the record over the next closer name: Secure, or Insecure exactly under opt-out |
| `Nsec3Delegation.DsNoDataIsSound` | rust/crates/hns-dnssec/src/lib.rs:900-945 | a DS denial is Secure only for a name that exists without DS and CNAME |
| `Nsec3Delegation.OptOutIsSound` | rust/crates/hns-dnssec/src/lib.rs:929-944 | without a matching record, Insecure implies an existing encloser and an opt-out span over the next closer name |
| `Nsec3Delegation.UnsignedReferralIsSound` | rust/crates/hns-dnssec/src/lib.rs:998-1046 | a referral is Insecure only for a delegation listed without DS, or in an opt-out span; never Secure |
| `Nsec3Delegation.DsNoDataAnswer` | rust/crates/hns-dnssec/src/lib.rs:900-927 | the record of the name: Secure exactly if it lacks DS and CNAME |
| `Nsec3Delegation.OptOutAnswer` | rust/crates/hns-dnssec/src/lib.rs:929-944 | without it: Insecure exactly if the span over the next closer name opts out |
| `Nsec3Delegation.UnsignedReferralAnswer` | rust/crates/hns-dnssec/src/lib.rs:998-1046 | the record of the delegation: Insecure exactly if it has NS, no DS and no SOA |
| `Nsec.CoveredNameExistsIff` | rust/crates/hns-dnssec/src/lib.rs:1842-1858 | a covered name owns nothing, and exists as an empty non-terminal exactly when the next owner of the covering record lies below it |
| `Nsec.EmptyNonTerminalIsCovered` | rust/crates/hns-dnssec/src/lib.rs:1842-1858 | the range test accepts an existing empty non-terminal |
| `Nsec.CoversInIff` | rust/crates/hns-dnssec/src/lib.rs:759-785 | a range answer looks at every NSEC record of the set |
| `Nsec.LacksInIff` | rust/crates/hns-dnssec/src/lib.rs:731-757 | a no-data answer looks at every NSEC record at the name |
| `NsecEncloser.ClosestEncloserIff` | rust/crates/hns-dnssec/src/lib.rs:787-823 | an encloser of a covered name is the true closest one exactly when it is the longer of the common ancestors of the name with the covering record's owner and with its next owner |
| `NsecEncloser.NameErrorIsExact` | rust/crates/hns-dnssec/src/lib.rs:787-823 | for records that state entries of the zone: a Secure name error was given the true closest encloser exactly when that is the one the covering set shows; then the name does not exist and the wildcard that could have answered it owns nothing |
| `NsecEncloser.EvidenceExists` | rust/crates/hns-dnssec/src/lib.rs:1842-1858 | every name that owns nothing is covered by some record of the zone |
| `NsecSigned.SignedCarriesEntry` | rust/crates/hns-dnssec/src/lib.rs:1108-1156 | for every zone: whatever a signature of the zone holds over carries the next owner and bitmap of an entry whose owner is the signed owner of the record, its own name or the wildcard that the label count leaves |
| `NsecSigned.StatesEntryIff` | rust/crates/hns-dnssec/src/lib.rs:1380-1400 | such a record states an entry of the zone under its own name exactly when the signed label count is that of its name |
| `NsecSigned.TruthfulIff` | rust/crates/hns-dnssec/src/lib.rs:680-729 | for every zone, with or without wildcards: an accepted set states entries of the zone exactly when an accepting RRSIG has the label count of the NSEC owners |
| `NsecSigned.NoWildcardNothingExpanded` | rust/crates/hns-dnssec/src/lib.rs:680-729 | in a zone without wildcard owners every accepted set is of that kind |
| `NsecSigned.RangeIsSoundIff` | rust/crates/hns-dnssec/src/lib.rs:1842-1858 | the range of a signed record covers no owner of the zone exactly when the record stands at its signed owner or inside the range of its signed owner |
| `NsecSigned.RangeSpeaksOfTheSignedOwner` | rust/crates/hns-dnssec/src/lib.rs:759-785 | for every zone: a Secure range answer rests on a record that covers the name and carries an entry of the zone |
| `NsecSigned.SignedNameRangeIsSound` | rust/crates/hns-dnssec/src/lib.rs:759-785 | from signatures alone: if every offered RRSIG leaves the records at or inside their signed ranges, Secure implies that the name owns nothing |
| `NsecSigned.SignedNameRangeIsExact` | rust/crates/hns-dnssec/src/lib.rs:759-785 | from signatures alone: if no offered RRSIG expands a wildcard, the name owns nothing and exists exactly when the covering record's next owner lies below it |
| `NsecSigned.NoDataSpeaksOfTheSignedOwner` | rust/crates/hns-dnssec/src/lib.rs:731-757 | for every zone: Secure implies that the signed owner lacks the type and CNAME, and that owner is the query exactly when the accepting RRSIG has the label count of the query |
| `NsecSigned.SignedNoDataIsSound` | rust/crates/hns-dnssec/src/lib.rs:731-757 | from signatures alone: if no offered RRSIG expands a wildcard, Secure implies that the name owns records, none of the type and no CNAME |
| `NsecSigned.SignedNameErrorIsSound` | rust/crates/hns-dnssec/src/lib.rs:787-823 | from signatures alone, for placed records: neither the query nor the wildcard below the caller's encloser owns anything |
| `NsecSigned.SignedNameErrorIsExact` | rust/crates/hns-dnssec/src/lib.rs:787-823 | from signatures alone, without expanded records: the caller's encloser is the true one exactly when the covering set shows it, and then the name does not exist and its wildcard owns nothing |
| `NsecWitness.PresentedIsAccepted` | rust/crates/hns-dnssec/src/lib.rs:1380-1400 | every entry of every zone is accepted, with its genuine signature, under every name that has the same signed owner |
| `NsecWitness.PresentedAnswers` | rust/crates/hns-dnssec/src/lib.rs:731-785 | the exact range and no-data answers over such a set: the range starts at the name presented, the types are those of the signed owner |
| `NsecWitness.ExpandedDeniesTypes` | rust/crates/hns-dnssec/src/lib.rs:731-757 | in every zone where a wildcard expands to another owner, that owner is denied every type the wildcard lacks, also those it has |
| `NsecWitness.MisplacedDeniesAnOwner` | rust/crates/hns-dnssec/src/lib.rs:759-785 | in every zone, a wildcard's record expanded outside its own range covers the wildcard's own name |
| `NsecWitness.ExpandedRecordsDeceive` | rust/crates/hns-dnssec/src/lib.rs:731-785 | a zone with a wildcard and an address beside it: the address is denied by a Secure no-data answer, and an owner by a Secure range answer |
| `NsecWitness.ZoneProvesNameErrors` | rust/crates/hns-dnssec/src/lib.rs:787-823 | every zone can prove every name error with two of its own records, for whichever ancestor of the name the caller takes as encloser, if the wildcard below it owns nothing |
| `NsecWitness.ShortEncloserDeceives` | rust/crates/hns-dnssec/src/lib.rs:787-823 | with an encloser that is too short the answer is Secure although the wildcard at the true closest encloser owns records; the covering set shows the true one |
| `StatusMailbox.Mailbox.constructor` | rust/crates/android-ffi/src/lib.rs:108-117 | a new mailbox is active, empty and valid |
| `StatusMailbox.Mailbox.DeactivateMailbox` | rust/crates/android-ffi/src/lib.rs:119-127 | the mailbox is emptied and inactive |
| `StatusMailbox.Mailbox.PeekMatching` | rust/crates/android-ffi/src/lib.rs:129-142 | the pending status of the host and generation, only while active |
| `StatusMailbox.Mailbox.AcknowledgeMatching` | rust/crates/android-ffi/src/lib.rs:144-162 | removes exactly the entry of that host, generation and sequence |
| `StatusMailbox.Mailbox.DiscardMatching` | rust/crates/android-ffi/src/lib.rs:164-167 | removes whatever entry of the host and generation is pending |
| `StatusMailbox.Mailbox.OldestHost` | rust/crates/android-ffi/src/lib.rs:199-206 | the scan finds the smallest sequence |
| `StatusMailbox.Mailbox.RecordStatus` | rust/crates/android-ffi/src/lib.rs:169-220 | the eviction loop ends in the specified state |
| `StatusMailbox.EvictKeepsTheMost` | rust/crates/android-ffi/src/lib.rs:195-215 | eviction keeps the largest set of newest entries that leaves room, and nothing it drops is newer than what it keeps |
| `StatusMailbox.RecordIsExact` | rust/crates/android-ffi/src/lib.rs:169-220 | recording keeps at most 8 hosts and 64 KiB with an exact byte total, stores the new status as the newest and evicts no more than needed |
| `StatusMailbox.RecordedIsPeeked` | rust/crates/android-ffi/src/lib.rs:129-142 | what has been recorded is what a peek of its host and generation sees, with a trace above 64 KiB dropped; no other generation sees it |
| `StatusMailbox.AcknowledgesWhatIsPeeked` | rust/crates/android-ffi/src/lib.rs:144-162 | an acknowledgement removes its entry exactly if a peek of the host and generation sees that sequence |
| `StatusMailbox.AcknowledgeKeepsValid` | rust/crates/android-ffi/src/lib.rs:119-167 | acknowledging and deactivating keep the limits and the exact total |
| `StatusMailbox.RunKeepsValid` | rust/crates/android-ffi/src/lib.rs:119-220 | the limits and the exact total hold after every run |
| `StatusMailbox.InactiveStaysEmpty` | rust/crates/android-ffi/src/lib.rs:119-220 | after deactivation the mailbox stays empty |
| `StatusMailbox.RunIsSameBelow` | rust/crates/android-ffi/src/lib.rs:144-220 | until the sequence starts over, an old sequence number still means the entry it meant |
| `StatusMailbox.StaleAcknowledgeIsHarmless` | rust/crates/android-ffi/src/lib.rs:129-162 | acknowledging a status peeked earlier removes that very status or nothing, until the sequence starts over |
| `StatusMailbox.WrapReusesSequences` | rust/crates/android-ffi/src/lib.rs:184-190 | after the sequence starts over a stale acknowledgement removes a newer status |
| `Cancellation.RunKeepsInv` | rust/crates/hns-loopback-proxy/src/backend.rs:30-70 | in every interleaving of any number of threads the lock is exclusive, waiters' conclusions about the flag stay true, nobody sleeps past a notification, and the flag never clears |
| `Cancellation.NoLostWakeup` | rust/crates/hns-loopback-proxy/src/backend.rs:30-70 | once a cancel has returned, nobody is asleep un-notified and nobody is about to fall asleep |
| `Cancellation.OneCancelReturnsTrue` | rust/crates/hns-loopback-proxy/src/backend.rs:29-44 | a cancel returns true exactly when none has returned before it |
| `Cancellation.ReturnsAreLinear` | rust/crates/hns-loopback-proxy/src/backend.rs:30-70 | after a cancel has returned every wait returns true and every cancel false; after a wait has returned true no wait returns false |
| `Cancellation.SomeoneCanMove` | rust/crates/hns-loopback-proxy/src/backend.rs:30-70 | after cancellation no running call can be stuck |
| `Cancellation.CallsFinish` | rust/crates/hns-loopback-proxy/src/backend.rs:52-70 | after cancellation all running calls return within a bounded number of steps under every schedule |
| `Der.ReadDerLength` | rust/crates/hns-dane/src/lib.rs:798-834 | the octet loop computes the specified length or error, and its overflow branches are never taken |
| `Der.ReadDerElement` | rust/crates/hns-dane/src/lib.rs:768-796 | the element reader stays within its limit |
| `Der.ExtractSpkiDer` | rust/crates/hns-dane/src/lib.rs:362-394 | the cursor walk with its five skips computes the specified key or error |
| `Der.LengthRoundTrip` | rust/crates/hns-dane/src/lib.rs:798-834 | the distinguished encoding of every length is accepted at any position (section 10.1 of X.690) |
| `Der.LengthIsCanonical` | rust/crates/hns-dane/src/lib.rs:798-834 | nothing but the distinguished encoding of the result is accepted |
| `Der.ElementRoundTrip` | rust/crates/hns-dane/src/lib.rs:768-796 | every encoded element within the limit is read back |
| `Der.ElementIsEncoded` | rust/crates/hns-dane/src/lib.rs:768-796 | every element read is the encoding of its own tag and content |
| `Der.ExtractsTheEmbeddedKey` | rust/crates/hns-dane/src/lib.rs:362-394 | a key is returned exactly for certificates assembled as a sequence holding a sequence of an optional version, five fields, the key and a rest; it is that key element |
| `ProxyMachine.BrowserProxyStateMachine.constructor` | ios/HnsDaneBrowser/Core/BrowserProxyStateMachine.swift:25-28 | the initial state |
| `ProxyMachine.BrowserProxyStateMachine.QueueScope` | ios/HnsDaneBrowser/Core/BrowserProxyStateMachine.swift:30-50 | new state and actions for a queued scope |
| `ProxyMachine.BrowserProxyStateMachine.ResumeProxy` | ios/HnsDaneBrowser/Core/BrowserProxyStateMachine.swift:52-71 | new state and actions on resume |
| `ProxyMachine.BrowserProxyStateMachine.Started` | ios/HnsDaneBrowser/Core/BrowserProxyStateMachine.swift:73-102 | new state and actions of a start callback, stale, failed, superseded or accepted |
| `ProxyMachine.BrowserProxyStateMachine.Admitted` | ios/HnsDaneBrowser/Core/BrowserProxyStateMachine.swift:104-107 | the pending scope is cleared only for the active epoch and scope |
| `ProxyMachine.BrowserProxyStateMachine.NotAdmitted` | ios/HnsDaneBrowser/Core/BrowserProxyStateMachine.swift:109-113 | a failed admission of the active epoch |
| `ProxyMachine.BrowserProxyStateMachine.SuspendProxy` | ios/HnsDaneBrowser/Core/BrowserProxyStateMachine.swift:115-137 | new state and actions on suspension |
| `ProxyMachine.BrowserProxyStateMachine.RendererGone` | ios/HnsDaneBrowser/Core/BrowserProxyStateMachine.swift:139-161 | new state and actions when the renderer dies |
| `ProxyMachine.BrowserProxyStateMachine.DestroyProxy` | ios/HnsDaneBrowser/Core/BrowserProxyStateMachine.swift:163-182 | new state and actions on destruction |
| `ProxyLifecycle.StepKeepsInv` | ios/HnsDaneBrowser/Core/BrowserProxyCoordinator.swift:253-431 | every main-actor event, callback and queue step keeps machine, active proxy, queue order, epochs and join order consistent |
| `ProxyLifecycle.AtMostOneUnjoined` | ios/HnsDaneBrowser/Core/BrowserProxyCoordinator.swift:315-373 | in every interleaving at most one native proxy is un-joined and every proxy started is in exactly one place: active, offered, waiting for its join, or joined once |
| `ProxyLifecycle.ActiveMeansPublished` | ios/HnsDaneBrowser/Core/BrowserProxyCoordinator.swift:253-313 | a proxy is active exactly in the active phase, with its scope, and a web view exists exactly then, showing a page of that scope |
| `ProxyLifecycle.StartingHasOneStart` | ios/HnsDaneBrowser/Core/BrowserProxyCoordinator.swift:315-373 | outstanding starts have rising epochs; the starting phase has exactly one of the current epoch and it is the newest, no other phase has any |
| `ProxyLifecycle.PublishesTheNewest` | ios/HnsDaneBrowser/Core/BrowserProxyCoordinator.swift:266-291 | a step publishes only the accepted candidate of the current epoch for the newest queued scope, and loads exactly the newest queued navigation |
| `ProxyLifecycle.UnsafeIsNeverReplayed` | ios/HnsDaneBrowser/Core/BrowserProxyCoordinator.swift:229-237 | a navigation that cannot be replayed becomes pending only by being queued, is dropped on suspension and renderer death, and is used up by being loaded |
| `ProxyLifecycle.Decision` | ios/HnsDaneBrowser/Core/BrowserProxyCoordinator.swift:343-373 | what the main actor decides about an offered candidate in every reachable state: dispose, dispose and restart, publish, or fail |
| `ProxyLifecycle.FailureOutcome` | ios/HnsDaneBrowser/Core/BrowserProxyCoordinator.swift:332-342 | what the callback of a failed start does in every reachable state |
| `ProxySettling.InternalStepSettles` | ios/HnsDaneBrowser/Core/BrowserProxyCoordinator.swift:315-373 | every callback or queue step brings the system strictly nearer to rest: stale callbacks cannot chase epochs for ever |
| `ProxySettling.SomethingToDo` | ios/HnsDaneBrowser/Core/BrowserProxyCoordinator.swift:315-373 | short of rest some internal step is possible |
| `ProxySettling.RestIsClean` | ios/HnsDaneBrowser/Core/BrowserProxyCoordinator.swift:315-431 | at rest no start is in flight and every proxy but the active one has been joined |
| `ProxySettling.SystemSettles` | ios/HnsDaneBrowser/Core/BrowserProxyStateMachine.swift:73-102 | after any history the internal steps end within a bound, in whatever order, and end at rest |
| `ProxySettling.DestroyedStaysDown` | ios/HnsDaneBrowser/Core/BrowserProxyStateMachine.swift:163-182 | after destruction no proxy is published and no page shown, whatever happens |
| `ProxyService.IdleHasNothingPending` | ios/HnsDaneBrowser/Core/BrowserProxyStateMachine.swift:30-71 | in every reachable state of the foreground an idle machine has no scope pending, and at rest only a failed one has |
| `ProxyService.NavigationIsTakenUp` | ios/HnsDaneBrowser/Core/BrowserProxyCoordinator.swift:206-227 | a navigation in the foreground is loaded at once through the active proxy of its scope, or waits for a start; unless one is running, the newest start is for its scope |
| `ProxyService.ResumeTakesUp` | ios/HnsDaneBrowser/Core/BrowserProxyCoordinator.swift:100-108 | coming to the foreground with a scope pending: a new start for exactly that scope, or the one that is running, and the pending navigation waits for it |
| `ProxyService.SuspensionRetains` | ios/HnsDaneBrowser/Core/BrowserProxyCoordinator.swift:110-119 | in the background nothing is shown, the proxy is to be joined, and the page that can be loaded again stays pending |
| `ProxyService.RendererDeathRestarts` | ios/HnsDaneBrowser/Core/BrowserProxyCoordinator.swift:711-720 | when the renderer dies the proxy is to be joined and the page that can be loaded again has a new start |
| `ProxyService.FollowedIsServed` | ios/HnsDaneBrowser/Core/BrowserProxyCoordinator.swift:433-443 | a navigation of the page itself in the active scope is the one that counts from then on |
| `ProxyService.ServedInTheEnd` | ios/HnsDaneBrowser/Core/BrowserProxyCoordinator.swift:253-373 | left alone, a navigation that has been taken up ends loaded through a proxy of its scope, or pending behind a start that failed |
| `ProxyService.BackgroundStaysDark` | ios/HnsDaneBrowser/Core/BrowserProxyStateMachine.swift:115-137 | until the browser comes back to the foreground no proxy is published and no page shown |
| `ProxyCoordinator.BrowserProxyCoordinator.constructor` | ios/HnsDaneBrowser/Core/BrowserProxyCoordinator.swift:55-90 | the initial state |
| `ProxyCoordinator.BrowserProxyCoordinator.RetireActive` | ios/HnsDaneBrowser/Core/BrowserProxyCoordinator.swift:423-431 | the active proxy leaves and its join is queued |
| `ProxyCoordinator.BrowserProxyCoordinator.AdmitPending` | ios/HnsDaneBrowser/Core/BrowserProxyCoordinator.swift:375-400 | the pending navigation is loaded only through an active proxy of its scope |
| `ProxyCoordinator.BrowserProxyCoordinator.ExecuteActions` | ios/HnsDaneBrowser/Core/BrowserProxyCoordinator.swift:253-313 | carrying out the actions one by one, with nested failures, reaches the specified state |
| `ProxyCoordinator.BrowserProxyCoordinator.EnqueueNavigation` | ios/HnsDaneBrowser/Core/BrowserProxyCoordinator.swift:206-227 | a queued navigation |
| `ProxyCoordinator.BrowserProxyCoordinator.ResumeBrowsing` | ios/HnsDaneBrowser/Core/BrowserProxyCoordinator.swift:100-108 | resume with replay of a safe last navigation |
| `ProxyCoordinator.BrowserProxyCoordinator.SuspendBrowsing` | ios/HnsDaneBrowser/Core/BrowserProxyCoordinator.swift:110-119 | suspension, discarding what cannot be replayed |
| `ProxyCoordinator.BrowserProxyCoordinator.ContentProcessDidTerminate` | ios/HnsDaneBrowser/Core/BrowserProxyCoordinator.swift:711-720 | death of the renderer of the current web view |
| `ProxyCoordinator.BrowserProxyCoordinator.DestroyCoordinator` | ios/HnsDaneBrowser/Core/BrowserProxyCoordinator.swift:121-129 | destruction |
| `ProxyCoordinator.BrowserProxyCoordinator.FollowNavigation` | ios/HnsDaneBrowser/Core/BrowserProxyCoordinator.swift:433-443 | a navigation of the web view itself is admitted only in the active scope |
| `ProxyCoordinator.BrowserProxyCoordinator.OnStartFailed` | ios/HnsDaneBrowser/Core/BrowserProxyCoordinator.swift:333-342 | the callback of a failed start |
| `ProxyCoordinator.BrowserProxyCoordinator.OnStartSucceeded` | ios/HnsDaneBrowser/Core/BrowserProxyCoordinator.swift:343-370 | the callback of a successful start and what the waiting queue does next |
| `ProxyCoordinator.BrowserProxyCoordinator.TakeNextTask` | ios/HnsDaneBrowser/Core/BrowserProxyCoordinator.swift:315-317 | the serial queue takes its tasks in order |
| `ProxyCoordinator.BrowserProxyCoordinator.FinishNativeStart` | ios/HnsDaneBrowser/Core/BrowserProxyCoordinator.swift:317-332 | a native start ends |
| `ProxyCoordinator.BrowserProxyCoordinator.JoinAndDestroy` | ios/HnsDaneBrowser/Core/BrowserProxyCoordinator.swift:365-370 | a proxy is joined |
| `ProcessModel.StepIsOrderly` | ios/HnsDaneBrowser/App/BrowserProcess.swift:63-427 | in every reachable state what is in flight follows from the phase: at most one sync, on the owned runtime, and behind it at most one build, for the current preparation or switch |
| `ProcessModel.StepKeepsNetworks` | ios/HnsDaneBrowser/App/BrowserProcess.swift:142-208 | every runtime belongs to the network it was built for and the owned one to the current network |
| `ProcessLedger.RuntimesHaveOnePlace` | ios/HnsDaneBrowser/App/BrowserProcess.swift:63-391 | in every interleaving each runtime ever created is owned, in preparation, or handed to close, in one place only and once |
| `ProcessLedger.OwnedNetworkIsCurrent` | ios/HnsDaneBrowser/App/BrowserProcess.swift:349-391 | the owned runtime's network is always the current network |
| `ProcessLedger.NoUseAfterClose` | ios/HnsDaneBrowser/App/BrowserProcess.swift:298-402 | a synchronisation never runs on a closed runtime |
| `ProcessLedger.RestIsClosed` | ios/HnsDaneBrowser/App/BrowserProcess.swift:298-391 | at rest every runtime but the owned one has been closed exactly once |
| `ProcessCallbacks.CallbacksHaveOnePlace` | ios/HnsDaneBrowser/App/BrowserProcess.swift:63-427 | every callback ever passed in is waiting, called once, or dropped once: none is called twice and none is lost otherwise |
| `ProcessCallbacks.OnlyCloseDrops` | ios/HnsDaneBrowser/App/BrowserProcess.swift:298-319 | callbacks are dropped only by closing during a preparation, and those are exactly its waiting callbacks |
| `ProcessCallbacks.RestIsAnswered` | ios/HnsDaneBrowser/App/BrowserProcess.swift:63-427 | at rest every callback has been called once or was dropped by a close |
| `ProcessCallbacks.SyncCallbacksWaitForTheirRuntime` | ios/HnsDaneBrowser/App/BrowserProcess.swift:210-220 | a sync callback waits only while a sync of the owned runtime is first in flight; closing leaves none waiting |
| `ProcessCallbacks.SyncResultAnswersAll` | ios/HnsDaneBrowser/App/BrowserProcess.swift:404-427 | a sync result answers all waiting sync callbacks with the result of the owned runtime and leaves none |
| `ProcessCallbacks.SwitchResultIsCurrent` | ios/HnsDaneBrowser/App/BrowserProcess.swift:349-362 | unless the process was closed, the result of a switch is never stale |
| `ProcessReplies.RepliesAreJustified` | ios/HnsDaneBrowser/App/BrowserProcess.swift:63-427 | in every reachable state every new reply is right: an environment is the one that is ready, a sync result the one that arrived from the owned runtime, and a refusal has one of the listed reasons |
| `ProcessReplies.EnvironmentIsUsable` | ios/HnsDaneBrowser/App/BrowserProcess.swift:321-391 | an environment that is ready belongs to the current network and is not being closed |
| `ProcessReplies.PreparationIsAnswered` | ios/HnsDaneBrowser/App/BrowserProcess.swift:63-92 | with a ready environment a preparation is answered with it at once and nothing else changes; one that cannot be made is refused at once |
| `ProcessReplies.PreparationIsTakenUp` | ios/HnsDaneBrowser/App/BrowserProcess.swift:63-119 | any other one waits, with exactly one build for the current network in flight |
| `ProcessReplies.SwitchIsTakenUp` | ios/HnsDaneBrowser/App/BrowserProcess.swift:142-208 | a switch keeps the old runtime and puts one build for the new network behind the work in flight |
| `ProcessReplies.BuildEnds` | ios/HnsDaneBrowser/App/BrowserProcess.swift:321-391 | the result of a build tells everyone who waits for it, and the phase, the network and the close of the old runtime follow it |
| `ProcessReplies.SyncIsTakenUp` | ios/HnsDaneBrowser/App/BrowserProcess.swift:210-220 | a sync request waits and a sync of the ready runtime is in flight |
| `ProcessReplies.ScheduledSyncIff` | ios/HnsDaneBrowser/App/BrowserProcess.swift:445-451 | a scheduled sync runs exactly in the ready phase, in the foreground and with the newest schedule |
| `ProcessReplies.OldScheduleNeverRuns` | ios/HnsDaneBrowser/App/BrowserProcess.swift:429-451 | a schedule that has been replaced never runs, however late its timer fires |
| `ProcessReplies.ForegroundSyncRuns` | ios/HnsDaneBrowser/App/BrowserProcess.swift:284-296 | coming to the foreground starts a schedule whose sync runs |
| `ProcessReplies.ClosedStaysClosed` | ios/HnsDaneBrowser/App/BrowserProcess.swift:298-319 | closing is final and no new work is taken up |
| `ProcessReplies.BackgroundSettles` | ios/HnsDaneBrowser/App/BrowserProcess.swift:63-427 | after any history the background works for a bounded number of steps in any order and ends at rest |
| `ProcessReplies.RestIsSettled` | ios/HnsDaneBrowser/App/BrowserProcess.swift:63-427 | at rest nothing is being prepared or switched, no sync runs and none is waited for |
| `ProcessObject.BrowserProcess.constructor` | ios/HnsDaneBrowser/App/BrowserProcess.swift:42-61 | the initial state |
| `ProcessObject.BrowserProcess.Prepare` | ios/HnsDaneBrowser/App/BrowserProcess.swift:63-119 | preparation in every phase |
| `ProcessObject.BrowserProcess.SwitchNetwork` | ios/HnsDaneBrowser/App/BrowserProcess.swift:142-208 | a network switch, refused, answered at once or started |
| `ProcessObject.BrowserProcess.SyncNow` | ios/HnsDaneBrowser/App/BrowserProcess.swift:210-220 | a requested synchronisation |
| `ProcessObject.BrowserProcess.SuspendForegroundSync` | ios/HnsDaneBrowser/App/BrowserProcess.swift:290-296 | foreground scheduling off |
| `ProcessObject.BrowserProcess.ResumeForegroundSync` | ios/HnsDaneBrowser/App/BrowserProcess.swift:284-288 | foreground scheduling on |
| `ProcessObject.BrowserProcess.Close` | ios/HnsDaneBrowser/App/BrowserProcess.swift:298-319 | closing in every phase |
| `ProcessObject.BrowserProcess.FinishPreparation` | ios/HnsDaneBrowser/App/BrowserProcess.swift:321-347 | the result of a preparation |
| `ProcessObject.BrowserProcess.FinishNetworkSwitch` | ios/HnsDaneBrowser/App/BrowserProcess.swift:349-391 | the result of a switch |
| `ProcessObject.BrowserProcess.StartSyncIfNeeded` | ios/HnsDaneBrowser/App/BrowserProcess.swift:393-402 | at most one sync is submitted |
| `ProcessObject.BrowserProcess.FinishSync` | ios/HnsDaneBrowser/App/BrowserProcess.swift:404-427 | the result of a sync |
| `ProcessObject.BrowserProcess.RunScheduledForegroundSync` | ios/HnsDaneBrowser/App/BrowserProcess.swift:445-451 | a scheduled sync of the current generation only |
| `ProcessObject.BrowserProcess.CompleteAll` | ios/HnsDaneBrowser/App/BrowserProcess.swift:337-345 | the loop calls every callback in order |
| `ProcessObject.BrowserProcess.HandleArrival` | ios/HnsDaneBrowser/App/BrowserProcess.swift:95-117 | results are handled in the order in which the queue sent them |

## Left out

- SQLite storage of headers: a foreign library; the in-memory store implements the same contract.
- Block hashing, SHA-1, RSA, ECDSA and Ed25519: arbitrary functions in the model.
- The checkpoint table and the network constants: parameters of `HeaderTree`; header fields that no check reads are one opaque part of the header.
- Big integers are unbounded numbers; 32-bit and 64-bit words are bounded where the code can reach their limits.
- Proxy epochs, switch generations and schedule generations wrap at 2^64 in the source; here they are unbounded.
- Callbacks of the browser process are recorded when they are called; a callback that calls back into the process while it runs is not modelled.
- Policy updates, static relay peers, resolver cache, header reset and proof details of the browser process: each queues one call on the owned runtime and would add only easy members.
- Delays, work items and failure counts of the foreground sync schedule: a scheduled sync may run at any time with its generation.
- Deallocation of the coordinator while blocks are queued: the coordinator is alive throughout.
- Timing of native calls, and the order of main-actor blocks in the proxy model: any order is allowed there, which includes the real one.
- History, address bar, downloads, authentication challenges and security labels of the coordinator: presentation.
- Main-frame policy decisions other than "admitted or queued": settled by reading one function.
- Delegation links, DS digests and the validation of whole DNSSEC chains: they combine the checks above without new state.
- Text beyond ASCII in domain names: labels are bytes, and only ASCII letters are lowered.
- Handshake resource records other than synthesised names: a sequence of fixed layouts.
- TLSA policy, certificate extensions and stateless DANE evidence: decisions and layouts beside the DER reader.
- Memory ordering weaker than sequential consistency in the cancellation token: every access to the flag that matters is made under its lock.
- SyncCallbacksWaitForTheirRuntime: a sync callback that is called by a close and itself asks for another synchronisation is not modelled. Closing calls the callbacks while the process is still ready (ios/HnsDaneBrowser/App/BrowserProcess.swift:298-304), so that such a request is taken and may stay pending after the close.
- SynthNameHoldsTheAddress: states addresses of up to 38 octets; longer input, which no caller has, does not fit a label.
