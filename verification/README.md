# Bytom's core algorithms, modelled and proved

Bytom is a chain of unspent outputs with Casper-style finality. This project models the parts of its
node that compute something delicate, and proves what callers rely on:

- **Reserving and merging outputs** (`Utxos`, `UtxoSelection`, `UtxoChoice`, `UtxoKeeper`, `MergeChain`,
  `SpendChain`, `SmallOutputs`). The keeper promises outputs to one user at a time and selects them well. Paying
  out of many outputs first merges them, five at a time, and each merge costs gas that must be reserved
  beforehand. The main result is `SpendChain.SpendAccountChain`: a payment is refused exactly when what was free
  is worth less than the amount and the gas; otherwise it is made exactly when every merge gathers the gas that
  was paid for it and the wallet can sign, and then reservation, gas formula and merge builder agree.
- **The transaction pool** (`TxPoolState`, `OrphanClosure`, `TxPool`). A new transaction promotes exactly the
  least closed set of orphans it makes ready, if and only if the pool has room for all of it. In every run, each
  orphan misses something and is indexed under exactly what it misses, but for the orphans that have been
  stranded, and it is known which those are.
- **scrypt** (`ScryptSpec`, `ScryptVectors`, `Scrypt`, `ScryptIndex`, `ScryptMix`, `ScryptKey`). The unrolled
  in-place code computes the functions of sections 3 to 5 of RFC 7914, and those give the known answers of its
  sections 8 and 9.
- **bech32 and segwit addresses** (`Bech32Checksum`, `Bech32`, `Bech32Vectors`, `Bech32Laws`, `ConvertBits`,
  `Address`). The checksum is the remainder by the generator polynomial of BIP 173, a linear code that notices any
  change within six neighbouring characters; encoding and decoding undo each other, for text, for bit groups and
  for addresses.
- **Fork choice and reorganisation** (`CheckpointTree`, `ForkChoice`, `Headers`, `MainChain`, `BlockChain`).
  The best node is a lexicographic maximum, and a leaf; a reorganisation goes through the highest common
  ancestor; the index by height, behind its cache, lists the ancestors of the best block after every run.
- **Block locators** (`Locator`). One node samples its chain, the other finds the fork.
- **Hashing of entries** (`Encoding`, `HashFormat`, `EntryHash`, `EntryLayout`). The hashed octets of whole entries
  can be decoded in one way only, so equal identifiers mean equal entries, or a collision; and they are given
  field by field.
- **Transport** (`Channel`, `Transport`, `Connection`, `Nonce`, `SecretConnection`). Under every interleaving,
  messages on many channels arrive in order and whole, except for the empty ones that are passed over, and the
  channels of both ends, as objects, perform those runs; whatever is written to one end of a secret connection is
  read at the other; nonces come again after 2^191 frames only.
- **base32** (`Base32`, `Base32Stream`, `Base32Laws`) and the **orphan blocks** (`OrphanManage`).

`Word64`, `Numbers` and `Wrappers` hold 64-bit arithmetic, powers and `Option`. Code that changes things step
by step is imperative here too: classes for the keeper, the pool, the chain with its store and cache, the
channel, the secret connection, readers and writers, the stream encoder and the orphan manager; array methods
for scrypt, base32 and nonces. A pure function or predicate specifies each method, and the lemmas are about it.

Where the code falls short of what one would expect, the model keeps the code, a lemma shows an input, and
another says exactly when it happens:

- A vote output empties a bucket that is still needed (`TxPool.VoteRunStrandsOrphan`,
  `TxPool.VoteOutputStrandsOrphan`; the conditions are `TxPool.LeftBehindIff`, on what is there before the
  transaction comes, and for one promotion `TxPoolState.PromoteKeepsIndexIff`).
- An orphan that a full pool does not take is lost, and orphans that wait for it lose their entries; when it is
  sent again, they are ready and nobody notices (`TxPool.LostOrphanStrandsDependent`,
  `TxPool.FullPoolStrandsDependent`, `TxPool.LostParentReturns`; the conditions are `TxPool.LostIffTooMany`,
  `TxPoolState.LosingKeepsIndexIff` and `TxPoolState.ExactIffNoneStranded`).
- Small outputs are reserved that are not worth the gas of merging them (`SmallOutputs.SmallRun`,
  `MergeChain.SmallAreNotMerged`; the condition on the amounts is `MergeChain.MergesIff`, and
  `MergeChain.WorthyAreMerged` says when all is well).
- An output that is confirmed and still listed as unconfirmed can be promised twice in one reservation
  (`UtxoKeeper.PromisedTwice`; the condition is in `UtxoKeeper.Keeper.Reserve`).
- After a switch to a lower tip the index still lists detached blocks above it, so `InMainChain` answers yes for
  them (`MainChain.StaleAboveBest`).
- A header count of zero means no limit, and a step that wraps around repeats headers (`Locator.ZeroIsNoMaximum`;
  `Locator.GreatestSkipWraps`, with the condition in `Locator.WrapsIff`).
- A missing struct leaves no octets, so two multiplexers can have one identifier
  (`EntryHash.MissingSourceIsAmbiguous`, `EntryHash.ProgramCanHideSource`; the conditions are
  `HashFormat.ListsDecodeIff` and `EntryHash.MuxBodiesDecodeIff`).
- The error of a list of strings hides the first one when few were read (`Encoding.FirstErrorIsHidden`, with the
  condition in `Encoding.Reader.ReadVarstrList`).
- An empty message vanishes when another channel is served (`Transport.EmptyMessageIsLost`; the conditions are
  `Transport.RefillLosesIff` and `Transport.DeliveredIsThinned`).
- `SecretConnection.Secret.Read` does not report octets from its buffer (`SecretConnection.SmallBufferRun`; the
  condition for a reader is `SecretConnection.ReportedIff`, and for two ends `SecretConnection.Transfer`).
- Without padding the stream encoder appends octets of its buffer (`Base32Stream.ClosedTooLong`; the condition is
  in `Base32Stream.Encoder.Close`).
- No check keeps line ends, the padding character or, without padding, the octet 255 out of a base32 alphabet
  (`Base32Laws.NewlineIsDropped`, `Base32Laws.SymbolEndsInput`; the condition is `Base32Laws.RoundTripIff`).

## Model

| member | source | states |
|---|---|---|
| UtxoSelection.SelectFrom | bytom/account/utxo_keeper.go:275-309 | The selection is a sub-list of the candidates in their order; its sum reaches the amount whenever all candidates together do, then no member can be spared, and its size is at most 5 or the smallest size that suffices; the order of the list determines it |
| UtxoSelection.ReplaceLargest | bytom/account/utxo_keeper.go:284-302 | One attempt to do without the largest member keeps the amount covered and the last member needed, and the amounts never wrap |
| UtxoSelection.FirstAreHeaviest | bytom/account/utxo_keeper.go:263-265 | No k candidates are worth more than the k first of the descending list |
| UtxoSelection.PrefixIsSmallestCover | bytom/account/utxo_keeper.go:275-283 | The greedy prefix is a smallest selection that reaches the amount |
| UtxoSelection.SmallAreSelected | bytom/account/utxo_keeper.go:275-309 | A large output and five of one: for an amount of five the small ones are selected |
| Word64.WrapsAround | bytom/account/utxo_keeper.go:267-309 | The unsigned numbers of the source start again after 18446744073709551615 |
| UtxoChoice.SelectionIsGoodChoice | bytom/account/utxo_keeper.go:258-309 | The promise of the selection, stated on sets: duplicate-free, from the free outputs, irredundant and small, whatever the order of equal amounts |
| UtxoChoice.CoverIsSmallest | bytom/account/utxo_keeper.go:275-283 | No set of fewer free outputs reaches the amount, among all sets |
| UtxoChoice.SortByAmount | bytom/account/utxo_keeper.go:263-265 | The same records of both sources, each of each source once, by descending amount |
| Utxos.ListsOnceIff | bytom/account/utxo_keeper.go:208-241 | However the records of two sources are listed, an output is listed twice exactly when both sources have it |
| Utxos.UntakenLists | bytom/account/utxo_keeper.go:267-273 | What is left of a list without the promised outputs lists what is left of both sources, and the rest is worth what was promised |
| UtxoKeeper.NoOutputIsPromisedTwice | bytom/account/utxo_keeper.go:55-66 | Two live reservations have no output in common |
| UtxoKeeper.GrantKeepsConsistency | bytom/account/utxo_keeper.go:137-146 | A reservation of free outputs keeps the table of promised outputs the exact inverse of the live reservations |
| UtxoKeeper.RevokeKeepsConsistency | bytom/account/utxo_keeper.go:176-186 | Cancelling any number, known or not, keeps it so |
| UtxoKeeper.RevokeUndoesGrant | bytom/account/utxo_keeper.go:137-186 | Cancelling what was just granted restores the table, except for the used number |
| UtxoKeeper.RevokeIsLocal | bytom/account/utxo_keeper.go:176-186 | Cancelling one reservation leaves the outputs of every other promised to it |
| UtxoKeeper.Keeper.AddUnconfirmedUtxo | bytom/account/utxo_keeper.go:80-87 | The unconfirmed records afterwards, by id, with the new ones replacing old ones |
| UtxoKeeper.Keeper.RemoveUnconfirmedUtxo | bytom/account/utxo_keeper.go:108-115 | Exactly the named ids are gone |
| UtxoKeeper.Keeper.FindUtxos | bytom/account/utxo_keeper.go:208-241 | Lists each mature matching record of each source once, and sums the immature ones; an output comes twice exactly when both sources have it |
| UtxoKeeper.Keeper.OptUtxos | bytom/account/utxo_keeper.go:258-309 | A good choice among the free candidates of both sources, the one that the order determines, and the exact sums of what was chosen and of what is promised already |
| UtxoKeeper.DecisionIsRight | bytom/account/utxo_keeper.go:123-135 | The three totals lead to a grant exactly when what is free reaches the amount, and to the error that explains the refusal otherwise |
| UtxoKeeper.Keeper.Reserve | bytom/account/utxo_keeper.go:117-147 | Granted exactly when the free mature records, of each source that has them, reach the amount; then the sum is amount plus change, the records were free and well chosen, no output comes twice if no free output is in both sources, and the table changes by that grant only; refused without any change, for the right reason |
| UtxoKeeper.Keeper.ChosenIsGoodChoice | bytom/account/utxo_keeper.go:258-309 | When no output is in both sources, the choice is one among sets of records, each at most once |
| UtxoKeeper.Keeper.FreeIsAvailable | bytom/account/utxo_keeper.go:208-241 | Then the free records of both sources are those among all that are visible, and are worth as much |
| UtxoKeeper.PromisedTwice | bytom/account/utxo_keeper.go:208-309 | A run in which an output of five that is in both sources pays for eight |
| UtxoKeeper.Keeper.ReserveParticular | bytom/account/utxo_keeper.go:149-174 | Granted exactly when the output is free, known and mature; otherwise the error says which, in that order |
| UtxoKeeper.Keeper.Cancel | bytom/account/utxo_keeper.go:90-94 | The whole new table, and that it stays consistent |
| UtxoKeeper.Keeper.ExpireReservation | bytom/account/utxo_keeper.go:197-206 | Exactly the expired reservations and their promises are gone |
| MergeChain.GasForIsPerMerge | bytom/account/builder.go:59-67 | The gas loop charges one merge's gas for each merge that is needed |
| MergeChain.CalcMergeGas | bytom/account/builder.go:59-67 | The loop computes the gas of the number of merges that turn num outputs into one |
| MergeChain.ChainSpendsEverythingOnce | bytom/account/builder.go:101-155 | The merges spend every reserved output and every intermediate one exactly once and in order, only the last is left, their number is the one the gas was computed for, and each has two to five inputs and one output of the native asset |
| MergeChain.NativeAsset | bytom/consensus/general.go:69-75 | All octets of the identifier of the native asset are 255 |
| MergeChain.ChainConservesValue | bytom/account/builder.go:101-155 | The last output is worth the reserved sum less the gas |
| MergeChain.AskedInOrder | bytom/account/builder.go:103-112 | The wallet is asked about reserved outputs and outputs of merges only, in the order of the queue |
| MergeChain.AskedIsSpent | bytom/account/builder.go:103-155 | When all is merged, it was asked about exactly what was spent |
| MergeChain.ChainIffPaid | bytom/account/builder.go:101-125 | The chain of merges can be built exactly when what each merge gathers, of the outputs that were reserved, is worth the gas of that merge and of all merges that led to it |
| MergeChain.MergesIff | bytom/account/builder.go:101-125 | Whether it can be built hangs on the amounts of the reserved outputs and their order alone |
| MergeChain.WorthyAreMerged | bytom/account/builder.go:114-125 | Outputs that are each worth the gas of a merge can always be merged |
| MergeChain.SmallAreNotMerged | bytom/account/builder.go:114-125 | Five outputs of one in front of a large one: together they cover amount and gas, and cannot be merged |
| MergeChain.BuildBtmTxChain | bytom/account/builder.go:86-155 | The loop that appends to the list it scans builds that chain; each error is returned exactly when its cause is there: no inputs, an unknown address, an output of the queue that cannot be signed for, or amounts that do not pay for their merges |
| SmallOutputs.SmallRun | bytom/account/builder.go:69-155 | A run: a payment of five reserves five outputs of one and, for the gas, a large one; that covers the payment and the gas of both merges, and the chain is not built |
| SpendChain.GrantExtends | bytom/account/builder.go:69-84 | One more reservation extends what the rollbacks will undo |
| SpendChain.RevokeExtends | bytom/account/builder.go:160-162 | One rollback takes back exactly its reservation |
| SpendChain.Rollback | bytom/account/builder.go:160-162 | Running all rollbacks restores the reservations and promises of before |
| SpendChain.GrantKeepsProgress | bytom/account/builder.go:69-84 | Every pass takes at least one free output, so the loop ends |
| SpendChain.OnePassMore | bytom/account/builder.go:72-81 | One more good choice for what is missing extends the list of passes |
| SpendChain.ReserveUntilCovered | bytom/account/builder.go:69-84 | The loop from any start: it keeps the progress, and ends with enough or with the reason why there is not |
| SpendChain.ReserveMore | bytom/account/builder.go:72-81 | One pass: the sums and the gas stay exact and the free outputs become fewer, or all that was free is too little, for the reason given |
| SpendChain.ReserveBtmUtxoChain | bytom/account/builder.go:69-84 | Ends with distinct outputs, free before, that cover the amount and the gas of merging them, or fails exactly when the free outputs are worth less than that; every pass was needed, chose well for what was missing, and is on record with its change and expiry |
| SpendChain.Pay | bytom/account/builder.go:157-197 | The outcome is determined by what was reserved: the first error that has a cause, or the chain of merges, its last output and the exact change |
| SpendChain.SpendAccountChain | bytom/account/builder.go:157-197 | Refused exactly when what was free is worth less than the amount and the gas of merging what could be reserved, for the reason given; otherwise the outcome is the one that the reserved outputs determine: the first error that has a cause, or a payment that spends exactly what was reserved, pays the gas of its merges, and keeps the exact change |
| TxPool.TxPool.CheckOrphanUtxos | bytom/protocol/txpool.go:302-315 | Exactly the spent outputs that cannot be spent |
| TxPool.TxPool.AddOrphan | bytom/protocol/txpool.go:262-276 | The orphan and its entries under every missing output, or nothing when there are too many |
| TxPool.TxPool.AddTransaction | bytom/protocol/txpool.go:278-300 | The transaction and its original outputs, or nothing when the pool is full |
| TxPool.TxPool.RemoveOrphan | bytom/protocol/txpool.go:359-376 | The orphan and all its entries are gone, and no bucket is left empty |
| TxPool.TxPool.AddRely | bytom/protocol/txpool.go:328-340 | The buckets of the results move to the queue as a whole |
| TxPool.TxPool.ProcessQueued | bytom/protocol/txpool.go:343-356 | One turn of the worklist keeps its invariant and makes the measure smaller, whatever kinds of outputs the orphans spend |
| TxPool.TxPool.ProcessOrphans | bytom/protocol/txpool.go:326-357 | The worklist ends with no ready orphan left that was not stranded before; it has promoted the closure if pool and closure fit in the capacity, and otherwise lost orphans to the full pool; the index is as it should be but for the outputs of what left |
| TxPool.TxPool.ProcessTransaction | bytom/protocol/txpool.go:226-260 | In every run the invariant stays: each orphan that is not stranded misses something and is indexed under exactly what it misses. A transaction becomes an orphan exactly when it misses something; otherwise it enters the pool, and it is named who is stranded then. If nobody was before, it brings the closure it unlocks along exactly when there is room for all of it, and whether somebody is stranded then could be seen before the call |
| TxPool.TxPool.ExpireOrphan | bytom/protocol/txpool.go:104-113 | Exactly the expired orphans are gone, and the invariant stays with the same orphans stranded |
| TxPool.TxPool.RemoveTransaction | bytom/protocol/txpool.go:128-145 | The transaction and the entries of its results are gone; the invariant stays when no other pooled transaction needs it, and the orphans that spend a result of it are stranded |
| TxPool.StepPromote | bytom/protocol/txpool.go:351-355 | Promoting the head of the queue keeps the worklist invariant |
| TxPool.StepLose | bytom/protocol/txpool.go:351-355 | A head that the full pool does not take is lost, and the index stays as it should be but for its outputs |
| TxPool.StepSkip | bytom/protocol/txpool.go:344-351 | So does dropping a head that still misses something |
| TxPool.StepAgain | bytom/protocol/txpool.go:343-356 | A head that was promoted or lost before changes nothing |
| TxPool.FinishPromoting | bytom/protocol/txpool.go:326-357 | An empty queue means that nothing that could be noticed is ready, and that the closure has been promoted or some of it was lost to a full pool |
| TxPool.LostIffTooMany | bytom/protocol/txpool.go:278-281 | Nothing is lost when pool and closure together fit in the capacity, and exactly then if no orphan was stranded before; then the closure is what was promoted |
| TxPool.ProcessedIsSettled | bytom/protocol/txpool.go:326-357 | After the worklist the invariant holds again, with exactly the orphans stranded that were before or wait for an emptied bucket; the index is exact exactly when there are none |
| TxPool.LeftBehindIff | bytom/protocol/txpool.go:326-357 | When the closure fits and none was stranded before, an orphan is stranded exactly when, before the call, one outside the closure waits for a result of the transaction or of the closure that the pool does not record |
| TxPool.AddedOrphanIsSettled | bytom/protocol/txpool.go:262-276 | A new orphan keeps the pool's invariant, whatever it spends; one that was stranded and is sent again is indexed anew |
| TxPool.DroppedOrphanIsSettled | bytom/protocol/txpool.go:359-376 | So does dropping one |
| TxPool.RemovalKeepsIndexIff | bytom/protocol/txpool.go:128-145 | Removing a transaction keeps the index exact exactly when no orphan spends an output that stops being available |
| TxPool.RemovalIsSettled | bytom/protocol/txpool.go:128-145 | Removing a transaction that nobody else in the pool needs keeps the invariant, and strands exactly the orphans that spend a result of it that stops being available |
| TxPool.RemovalKeepsOutputs | bytom/protocol/txpool.go:137-141 | With distinct results, removal keeps the recorded outputs those of the pool |
| TxPool.VoteOutputStrandsOrphan | bytom/protocol/txpool.go:278-300 | One promotion with a vote output that leaves an orphan without its entry |
| TxPool.VoteRunStrandsOrphan | bytom/protocol/txpool.go:226-357 | A run in which the transaction with the vote output that an orphan waits for arrives, and the orphan is in no bucket |
| TxPool.LostOrphanStrandsDependent | bytom/protocol/txpool.go:351-355 | A lost orphan leaves one behind that waits for it and is in no bucket |
| TxPool.FullPoolStrandsDependent | bytom/protocol/txpool.go:226-357 | Three calls on a pool with room for one that end so |
| TxPool.LostParentReturns | bytom/protocol/txpool.go:226-357 | A run that goes on from there: the lost transaction is sent again and enters, its dependent misses nothing any more and stays an orphan |
| TxPoolState.PromoteKeepsIndexIff | bytom/protocol/txpool.go:328-356 | A promotion keeps the index exact exactly when no other orphan waits for a result that the pool does not record |
| TxPoolState.LosingKeepsIndexIff | bytom/protocol/txpool.go:351-355 | Losing an orphan keeps the index exact exactly when no other orphan waits for a result of it |
| TxPoolState.PromoteKeepsIndexed | bytom/protocol/txpool.go:328-376 | A promotion, and a loss to a full pool, keeps the index as it should be but for the results of what leaves |
| TxPoolState.ExactIff | bytom/protocol/txpool.go:326-357 | An index that is exact but for some outputs is exact exactly when no orphan waits for those |
| TxPoolState.GoneStrands | bytom/protocol/txpool.go:328-376 | Of the orphans not stranded before, exactly those with an unavailable output among the emptied buckets lack an entry |
| TxPoolState.ExactIffNoneStranded | bytom/protocol/txpool.go:328-376 | The index is exact exactly when no orphan is stranded |
| TxPoolState.PromoteKeepsTidy | bytom/protocol/txpool.go:326-357 | A promotion keeps ids, buckets and recorded outputs in order |
| OrphanClosure.ClosureIsLeast | bytom/protocol/txpool.go:326-357 | The promoted set is contained in every set closed under promotion |
| OrphanClosure.ClosureIsClosed | bytom/protocol/txpool.go:326-357 | Nothing that it makes ready is left behind |
| OrphanClosure.ClosureIsUnique | bytom/protocol/txpool.go:342-356 | Any order of promotion that stops when nothing is ready finds the same set |
| Scrypt.BlockCopy | bytom/crypto/scrypt/scrypt.go:17-20 | The destination with the words of the source in place |
| Scrypt.BlockXor | bytom/crypto/scrypt/scrypt.go:22-27 | The destination with the exclusive or in place |
| Scrypt.DoubleRoundUnrolled | bytom/crypto/scrypt/scrypt.go:50-122 | The 32 unrolled steps are the double round of Salsa20 (section 3 of RFC 7914) |
| Scrypt.EightRounds | bytom/crypto/scrypt/scrypt.go:50-123 | Four double rounds |
| Scrypt.SalsaXor | bytom/crypto/scrypt/scrypt.go:29-158 | Salsa20/8 of the exclusive or, in both places |
| ScryptVectors.QuarterRoundOfOne | bytom/crypto/scrypt/scrypt.go:50-122 | A single bit passes each of the four rotations to its known places |
| ScryptVectors.SalsaVector | bytom/crypto/scrypt/scrypt.go:29-158 | The known answer of Salsa20/8, section 8 of RFC 7914, round by round |
| Scrypt.MixedStep | bytom/crypto/scrypt/scrypt.go:162-165 | Even results land in the first half and odd ones in the second, and earlier ones stay |
| Scrypt.MixedAll | bytom/crypto/scrypt/scrypt.go:160-166 | After r pairs the output holds the block mix |
| Scrypt.BlockMix | bytom/crypto/scrypt/scrypt.go:160-166 | The output part is scryptBlockMix of the input part (section 4), nothing else of it changes |
| ScryptVectors.BlockMixVector | bytom/crypto/scrypt/scrypt.go:160-166 | The known answer of scryptBlockMix, section 9 of RFC 7914 |
| ScryptIndex.AndMask | bytom/crypto/scrypt/scrypt.go:190-194 | Masking with 2^k - 1 is the remainder by 2^k |
| ScryptIndex.MaskedIndex | bytom/crypto/scrypt/scrypt.go:168-195 | The mask of the low 64 bits picks the index that Integerify asks for, within the memory |
| ScryptMix.OctetsOfWords | bytom/crypto/scrypt/scrypt.go:178-206 | Writing the words back gives the octets that were read |
| ScryptMix.FilledGrows | bytom/crypto/scrypt/scrypt.go:182-188 | Each slot of the memory gets its V and keeps it |
| ScryptMix.Fill | bytom/crypto/scrypt/scrypt.go:183-187 | Half a turn of the filling loop, from either buffer into the other |
| ScryptMix.Walk | bytom/crypto/scrypt/scrypt.go:190-196 | Half a turn of the data-dependent loop |
| ScryptMix.MixWords | bytom/crypto/scrypt/scrypt.go:182-198 | Both loops together are scryptROMix (section 5) on words, for every N that is a power of two |
| ScryptKey.SMix | bytom/crypto/scrypt/scrypt.go:173-207 | The 128r octets become scryptROMix of them, the rest of the array stays |
| ScryptKey.PowersPass | bytom/crypto/scrypt/scrypt.go:226-228 | A power of two shares no bit with its predecessor |
| ScryptKey.Exponent | bytom/crypto/scrypt/scrypt.go:226-228 | A number that shares no bit with its predecessor is a power of two |
| ScryptKey.MaxInt | bytom/crypto/scrypt/scrypt.go:15 | The greatest int is one less than half of what eight octets can hold |
| ScryptKey.IsTooLarge | bytom/crypto/scrypt/scrypt.go:229-231 | The test is exact although the 64-bit product may wrap around |
| ScryptKey.MixPieces | bytom/crypto/scrypt/scrypt.go:237-239 | Each of the p pieces is mixed on its own |
| ScryptKey.Key | bytom/crypto/scrypt/scrypt.go:225-242 | The errors exactly as documented, and otherwise the key of section 6 for any pseudorandom function |
| Bech32Checksum.StepIsLinear | bytom/common/bech32/bech32.go:216-222 | The step of a difference is the difference of the steps |
| Bech32Checksum.StepIsInjective | bytom/common/bech32/bech32.go:216-222 | Only the zero state steps to zero |
| Bech32Vectors.GeneratorIsMultiple | bytom/common/bech32/bech32.go:10 | Each generator is a power of two, in the field of 32 elements, times the generator polynomial of BIP 173 |
| Bech32Vectors.StepIsDivision | bytom/common/bech32/bech32.go:216-222 | A step is one of the division by that polynomial: the groups move up, the next one comes in, and the leading one times the polynomial is taken off |
| Bech32Checksum.PolymodStep | bytom/common/bech32/bech32.go:216-222 | The loop over the five generators is the step |
| Bech32Checksum.DifferenceSurvives | bytom/common/bech32/bech32.go:213-225 | Different states stay different, whatever follows |
| Bech32Checksum.WindowIsPacked | bytom/common/bech32/bech32.go:213-225 | Over six groups the states differ by exactly the groups' difference |
| Bech32Checksum.BurstIsDetected | bytom/common/bech32/bech32.go:241-248 | A change within six neighbouring groups changes the remainder |
| Bech32Checksum.ChecksumIsRight | bytom/common/bech32/bech32.go:204-209 | The six groups of the flipped remainder make the remainder one |
| Bech32.ToBytes | bytom/common/bech32/bech32.go:97-110 | Succeeds exactly on characters of the set, with the groups they spell |
| Bech32.ToChars | bytom/common/bech32/bech32.go:112-123 | Succeeds exactly on groups of five bits, with their characters |
| Bech32.HrpExpand | bytom/common/bech32/bech32.go:227-238 | High bits, zero, low bits |
| Bech32.Polymod | bytom/common/bech32/bech32.go:212-225 | The remainder of the whole list |
| Bech32.Checksum | bytom/common/bech32/bech32.go:194-210 | Six groups that make the data valid under the human-readable part |
| Bech32.VerifyChecksum | bytom/common/bech32/bech32.go:240-248 | True exactly for data with its checksum |
| Bech32.Encode | bytom/common/bech32/bech32.go:78-95 | Succeeds exactly on groups of five bits, with the text of part, separator, data and checksum |
| Bech32.Decode | bytom/common/bech32/bech32.go:11-76 | Succeeds exactly on the strings that stand for something, and returns that; which error is returned when |
| Bech32Vectors.ShortIsAccepted | bytom/common/bech32/bech32.go:11-76 | "a12uel5l" stands for the part "a" and no data |
| Bech32Vectors.UpperIsAccepted | bytom/common/bech32/bech32.go:26-38 | In capital letters it stands for the same |
| Bech32Vectors.CaseIsOneBit | bytom/common/bech32/bech32.go:26-38 | The case of a letter is one bit, and nothing else has case |
| Bech32Vectors.LongIsAccepted | bytom/common/bech32/bech32.go:11-76 | The test vector of BIP 173 that uses every character stands for the 32 groups in order |
| Bech32.SeparatorIsLast | bytom/common/bech32/bech32.go:40-52 | The last separator ends the human-readable part of any encoding |
| Bech32Laws.EncodingIsUnique | bytom/common/bech32/bech32.go:78-95 | One text for each part and data |
| Bech32Laws.AcceptedIsUnique | bytom/common/bech32/bech32.go:11-76 | A decoder of accepted strings has no choice |
| Bech32Laws.EncodingIsAccepted | bytom/common/bech32/bech32.go:11-95 | Every encoding of length 8 to 90 under a lowercase part is accepted as what was encoded |
| Bech32Laws.DecodingIsReencoded | bytom/common/bech32/bech32.go:11-95 | Encoding what was decoded gives the text in lower case |
| Bech32Laws.TamperingIsRejected | bytom/common/bech32/bech32.go:11-76 | A valid string with any change within six neighbouring data characters is rejected, unless the change moves the separator |
| Bech32Laws.SubstitutionIsRejected | bytom/common/bech32/bech32.go:11-76 | Changing one data character to another of the set is always rejected |
| Bech32Laws.RoundTrip | bytom/common/bech32/bech32.go:11-95 | Decoding what was encoded returns part and data |
| ConvertBits.Convert | bytom/common/bech32/bech32.go:125-192 | For all widths of 1 to 8: fails exactly on other widths or a harmful rest; otherwise the same string of bits, padded with zeros or stripped of the rest |
| ConvertBits.JoinedBits | bytom/common/bech32/bech32.go:160-163 | The shifts append the top bits of one octet to the other |
| ConvertBits.UnpackedIsInjective | bytom/common/bech32/bech32.go:127-192 | The bits determine the groups |
| ConvertBits.StrippingUndoesPadding | bytom/common/bech32/bech32.go:127-192 | Eight to five with padding, then five to eight without, gives the octets back |
| ConvertBits.PaddingUndoesStripping | bytom/common/bech32/bech32.go:127-192 | Any groups of five that five to eight accepts are reproduced by eight to five |
| Address.EncodeSegWitAddress | bytom/common/address.go:71-102 | Succeeds exactly when the text for the version and the padded program is read as these; under a lowercase part, exactly when version, program length and total length are allowed |
| Address.DecodeSegWitAddress | bytom/common/address.go:147-188 | Succeeds exactly on the texts that carry an allowed version and program, and returns them; no version, a bad version or a bad length is the error exactly when that is what is wrong |
| Address.IsBech32SegwitPrefix | bytom/consensus/general.go:88-91 | Of the text of any witness, the part up to the last separator is accepted exactly when the witness is of the network; in general, exactly the network's part in any case with the separator |
| Address.PrefixOfWitness | bytom/common/address.go:108-117 | A witness of a network has its last separator right after the part of the network, in any case |
| Address.DecodeAddress | bytom/common/address.go:104-145 | Succeeds exactly on version-zero witnesses of the network, with the right kind of address; which prefix and version errors are returned when |
| Address.EncodeAddress | bytom/common/address.go:225-235 | The text of the program, or the empty one exactly when the whole would be too long |
| Address.RoundTrip | bytom/common/address.go:71-145 | Decoding an encoded address gives it back exactly when the network's part has two characters or more |
| Address.Canonical | bytom/common/address.go:71-145 | Encoding a decoded address gives the text in lower case |
| Address.EncodingIsWitness | bytom/common/address.go:91-102 | The encoder's own check passes exactly for allowed lengths, and then returns the same program |
| ForkChoice.BestNode | bytom/protocol/casper/tree_node.go:40-55 | The result is a lexicographic maximum of justified height, height and hash over all checkpoints of the tree: none has a higher justified height, at that height none is higher, and there none has a larger hash |
| ForkChoice.BestIsLeaf | bytom/protocol/casper/tree_node.go:40-55 | On a tree whose heights grow the best node has no children |
| ForkChoice.MaximumIsUnique | bytom/protocol/casper/tree_node.go:47-52 | With distinct hashes there is one |
| ForkChoice.OrderDoesNotMatter | bytom/protocol/casper/tree_node.go:46-54 | The choice does not depend on the order of children anywhere in the tree |
| ForkChoice.EntryHasPath | bytom/protocol/casper/tree_node.go:40-48 | The justified height that travels down is that of the last justified checkpoint on the path |
| ForkChoice.PathHasEntry | bytom/protocol/casper/tree_node.go:40-48 | Every node of the tree takes part in the choice, with that height |
| ForkChoice.LastJustified | bytom/protocol/casper/tree_node.go:57-71 | A justified checkpoint as high as any, if there is one; of several the one that comes first, parents before children and children from left to right |
| ForkChoice.FirstHighestIs | bytom/protocol/casper/tree_node.go:57-71 | The selected checkpoint is higher than all before it and no lower than all after it |
| ForkChoice.BestFollowsJustified | bytom/protocol/casper/tree_node.go:40-71 | The best node descends from, or is, a justified checkpoint as high as the last justified one |
| ForkChoice.NodeByHash | bytom/protocol/casper/tree_node.go:73-90 | A node of the tree with the hash, and none exactly when no node has it |
| ForkChoice.LackingHasNoPath | bytom/protocol/casper/tree_node.go:79-90 | A tree in which the search fails has the hash on no way down |
| CheckpointTree.GroupByParent | bytom/protocol/casper/tree_node.go:14-17 | For each hash the checkpoints below it, in the order of the list |
| CheckpointTree.MakeTree | bytom/protocol/casper/tree_node.go:13-32 | The queue empties, and the nodes in the heap have the shape of the tree that the parent hashes describe |
| CheckpointTree.PathsAreLinks | bytom/protocol/casper/tree_node.go:13-32 | The ways down that tree are exactly the chains of stored parent hashes |
| CheckpointTree.GrownIsGrowing | bytom/protocol/casper/tree_node.go:13-32 | Its heights grow from parent to child, as the fork choice needs |
| Headers.CalcReorganizeChain | bytom/protocol/block.go:60-90 | Ends with the way down from the old tip and up to the new one, through the highest common ancestor |
| Headers.ReorganizationIsUnique | bytom/protocol/block.go:60-90 | There is only one such way |
| Headers.ReorganizationIsLinked | bytom/protocol/block.go:60-90 | The lists are disjoint and linked from parent to child |
| MainChain.EvictionKeepsAgreement | bytom/database/store.go:221-238 | Evicting every height written keeps the cache in agreement with the database |
| MainChain.WritingExtends | bytom/database/store.go:221-233 | Writing the top of a line over an index of its bottom indexes the line |
| MainChain.ReorganizedIsSound | bytom/protocol/protocol.go:202-217 | A switch to any other tip, even a lower one, leaves index, cache and status right for it |
| MainChain.IndexMeansAncestry | bytom/protocol/protocol.go:181-193 | Up to the best height, the index lists a block exactly when it is an ancestor of the best one |
| MainChain.NothingAboveIsAncestor | bytom/protocol/protocol.go:181-193 | Above it no block is an ancestor |
| MainChain.StaleAboveBest | bytom/database/store.go:221-238 | After a switch to a lower tip every detached block above it is still indexed |
| MainChain.PoolStaysFresh | bytom/protocol/block.go:99-174 | A pool without transactions of the old chain has none of the new chain after the switch |
| MainChain.SwitchKeepsFresh | bytom/protocol/block.go:92-181 | The same for the state after the switch |
| BlockChain.Chain.SaveBlock | bytom/protocol/block.go:184-210 | A new block on a known parent changes no line and no index |
| BlockChain.Chain.LookupMainChainHash | bytom/database/cache.go:131-151 | The answer is the database's, with or without a cached entry, whatever the cache forgets |
| BlockChain.Chain.InMainChain | bytom/protocol/protocol.go:181-193 | Exactly ancestry up to the best height; above it, whatever the index still lists |
| BlockChain.Chain.SaveChainStatus | bytom/database/store.go:193-242 | The index after the batch and the cache after the evictions |
| BlockChain.Chain.SetState | bytom/protocol/protocol.go:202-217 | The whole new state |
| BlockChain.Chain.CollectDetached | bytom/protocol/block.go:101-126 | All transactions of the detached blocks but their coinbases |
| BlockChain.Chain.CollectAttached | bytom/protocol/block.go:128-156 | Restored are the detached ones that are not attached, removed the attached ones that were not detached |
| BlockChain.Chain.ReorganizeChain | bytom/protocol/block.go:92-181 | Keeps every invariant; a refusal changes nothing; otherwise the chain, the index and the pool are those of the new tip, and a pool without transactions of the old chain has none of the new one |
| BlockChain.Chain.TryReorganize | bytom/protocol/block.go:286-298 | Nothing to do for the best block, not found for an unknown one, refused exactly when the views refuse, and otherwise the reorganisation to the wanted tip, with index, cache, status and pool as they are then; the pool stays free of transactions of the chain |
| Locator.BlockLocator | bytom/netsync/chainmgr/fast_sync.go:46-74 | Samples at depths 0 to 9, 11, 15, 23 and so on, down to the first block, which comes once |
| Locator.SamplesDescend | bytom/netsync/chainmgr/fast_sync.go:46-74 | The heights strictly decrease |
| Locator.LocatorIsShort | bytom/netsync/chainmgr/fast_sync.go:69-71 | The length is at most about ten more than the logarithm of the height |
| Locator.FindStart | bytom/netsync/chainmgr/block_keeper.go:98-109 | The first sample on the responder's main chain, or the first block |
| Locator.StartIsClose | bytom/netsync/chainmgr/block_keeper.go:98-109 | The start is the fork itself when it is at most nine deep, and less than twice as deep otherwise |
| Locator.LocateHeaders | bytom/netsync/chainmgr/block_keeper.go:97-142 | Every case of the answer, and all of it; it is the wanted sample exactly when no step that is taken wraps around |
| Locator.Collect | bytom/netsync/chainmgr/block_keeper.go:121-141 | Every (skip + 1)-th header and then the stop header, up to the maximum; not ascending when a step wraps |
| Locator.WrapsIff | bytom/netsync/chainmgr/block_keeper.go:125-138 | Only the last step before the stop header can wrap, and whether it does |
| Locator.GreatestSkipWraps | bytom/netsync/chainmgr/handle.go:199-200 | A peer that asks for a skip of 2^64 - 1 makes the first step wrap |
| Locator.SampleAscends | bytom/netsync/chainmgr/block_keeper.go:121-141 | What is sent is strictly ascending, on the main chain and not above the stop header |
| Locator.ZeroIsNoMaximum | bytom/netsync/chainmgr/block_keeper.go:126-126 | The maximum is kept exactly when it is at least one |
| Encoding.PutUvarint | bytom/encoding/blockchain/blockchain.go:150-159 | Nine octets always suffice for 63 bits |
| Encoding.UvarintLength | bytom/encoding/blockchain/blockchain.go:15-15 | k octets suffice for 7k bits |
| Encoding.VarintIsReadBack | bytom/encoding/blockchain/blockchain.go:62-82 | Reading a written number returns it and leaves what follows |
| Encoding.VarstrIsReadBack | bytom/encoding/blockchain/blockchain.go:84-98 | The same for strings |
| Encoding.VarstrListIsReadBack | bytom/encoding/blockchain/blockchain.go:100-120 | The same for lists of strings |
| Encoding.Writer.WriteVarint31 | bytom/encoding/blockchain/blockchain.go:139-148 | Fails exactly above 31 bits, writing nothing |
| Encoding.Writer.WriteVarint63 | bytom/encoding/blockchain/blockchain.go:150-159 | Fails exactly above 63 bits, writing nothing |
| Encoding.Writer.WriteVarstr31 | bytom/encoding/blockchain/blockchain.go:161-168 | Fails exactly for strings that are too long, writing nothing |
| Encoding.Writer.WriteVarstrList | bytom/encoding/blockchain/blockchain.go:170-185 | Fails exactly when the list or an element is too long, possibly after a prefix |
| Encoding.Reader.ReadByte | bytom/encoding/blockchain/blockchain.go:38-49 | The next octet, which is consumed, or the end |
| Encoding.Reader.ReadUvarint | bytom/encoding/blockchain/blockchain.go:62-63 | The loop is the parser, with its two overflow checks |
| Encoding.Reader.ReadVarint31 | bytom/encoding/blockchain/blockchain.go:62-71 | The parsed number within 31 bits |
| Encoding.Reader.ReadVarint63 | bytom/encoding/blockchain/blockchain.go:73-82 | The parsed number within 63 bits |
| Encoding.Reader.ReadVarstr31 | bytom/encoding/blockchain/blockchain.go:84-98 | The parsed string, or the error of a short input |
| Encoding.Reader.ReadVarstrList | bytom/encoding/blockchain/blockchain.go:100-120 | The elements that were read, an empty one for a failure, and the error: the first one, or unexpected end when fewer elements were read than remain; no error exactly when the list can be parsed, and then it is that list |
| Encoding.ElementsParse | bytom/encoding/blockchain/blockchain.go:111-114 | Reading element by element succeeds exactly when parsing does, with the same elements |
| Encoding.FirstErrorIsHidden | bytom/encoding/blockchain/blockchain.go:115-117 | A count of three and a length out of range: the error that is returned is another one |
| Encoding.ReadExtensibleString | bytom/encoding/blockchain/blockchain.go:122-137 | The suffix that the consumer left, and nothing beyond the string is read |
| Encoding.WriteExtensibleString | bytom/encoding/blockchain/blockchain.go:187-203 | Body and suffix as one string, or nothing when too long |
| HashFormat.EncodingDecodes | bytom/protocol/bc/entry.go:81-165 | Values of one shape with equal octets in front are the same, up to missing against zero hashes, and so is what follows |
| HashFormat.FieldsDecode | bytom/protocol/bc/entry.go:146-161 | The same for the fields of a struct |
| HashFormat.SameIsEncodedAlike | bytom/protocol/bc/entry.go:81-165 | The same values have the same octets |
| HashFormat.HashBytesAreInjective | bytom/protocol/bc/hash.go:26-33 | The 32 octets determine the four numbers of a hash |
| HashFormat.ListsDecodeIff | bytom/protocol/bc/entry.go:126-130 | With structs missing, two lists have the same octets exactly when they have one length and the same present elements in order |
| HashFormat.WriteForHash | bytom/protocol/bc/entry.go:81-165 | The reflective writer writes the encoding, and fails exactly on a length of more than 31 bits |
| EntryHash.BodyHasShape | bytom/protocol/bc/mux.go:10-13 | The body of every whole entry has the one shape of its kind |
| EntryHash.TypDetermines | bytom/protocol/bc/original_output.go:9-14 | The names of the ten kinds differ |
| EntryHash.BodiesDecode | bytom/protocol/bc/vote_output.go:6-11 | Two whole entries of one kind have equal hashed octets exactly when they agree on all hashed fields |
| EntryHash.OutputsAgree | bytom/protocol/bc/original_output.go:10-14 | What agreement means, field by field, for outputs; the ordinal is not part of it |
| EntryHash.EntryID | bytom/protocol/bc/entry.go:34-64 | The zero hash for no entry, otherwise the hash of the named hash of the body |
| EntryLayout.PreimageLayout | bytom/protocol/bc/entry.go:45-62 | The octets of the outer hash: the prefix, the name of the kind, a colon and the inner hash, octet by octet |
| EntryLayout.BodyLayout | bytom/protocol/bc/entry.go:81-165 | The octets of the inner hash for each of the ten kinds: its fields one after another, in order |
| EntryLayout.LittleEndianAt | bytom/protocol/bc/entry.go:86-90 | Numbers are written with the least significant octet first |
| EntryLayout.BigEndianAt | bytom/protocol/bc/hash.go:27-32 | The words of a hash are written with the most significant octet first |
| EntryLayout.NoHashIsZero | bytom/protocol/bc/entry.go:100-104 | A missing hash is written as 32 zeros |
| EntryLayout.LimitsOfVarints | bytom/encoding/blockchain/blockchain.go:64-160 | Lengths take 31 bits and numbers 63 |
| EntryHash.EntryIDIdentifies | bytom/protocol/bc/entry.go:34-64 | Without a collision on their own inputs, entries have one identifier exactly when they agree |
| EntryHash.MuxBodiesDecodeIff | bytom/protocol/bc/mux.go:10-13 | With sources missing and programs of one length, two multiplexers have the same body exactly when they have as many places, the same sources in order and the same program |
| EntryHash.ProgramCanHideSource | bytom/protocol/bc/entry.go:81-165 | Without that condition on programs, a missing source can also be made up for by a longer program |
| EntryHash.MissingSourceIsAmbiguous | bytom/protocol/bc/entry.go:126-130 | Two different multiplexers with a missing source that have one identifier under every hash function |
| Channel.Channel.IsSendPending | bytom/p2p/connection/channel.go:67-78 | Whether there is something to send; the next message is taken when the last is gone |
| Channel.Channel.NextMsgPacket | bytom/p2p/connection/channel.go:85-101 | At most 1024 octets, marked when they are the last of the message, and counted then |
| Channel.Channel.RecvMsgPacket | bytom/p2p/connection/channel.go:103-117 | Overflow without a change, a longer part, or the whole message |
| Channel.Channel.TrySendBytes | bytom/p2p/connection/channel.go:132-143 | Queued and counted exactly when there is room |
| Channel.FindLeastChannel | bytom/p2p/connection/connection.go:325-336 | Every channel takes its next message; the one found is pending and of least ratio, and there is one exactly when some channel has something |
| Channel.SendMsgPacket | bytom/p2p/connection/connection.go:324-350 | Exhausted exactly when no channel has anything; otherwise one packet of a pending channel with the least ratio |
| Transport.PacketKeepsWhole | bytom/p2p/connection/channel.go:87-101 | Sending a packet moves octets from the sender to the wire and loses none |
| Transport.RefillKeepsWhole | bytom/p2p/connection/channel.go:70-78 | Taking the next message loses one message exactly when it is empty, and never another |
| Transport.RefillLosesIff | bytom/p2p/connection/channel.go:70-78 | A complete line stays complete exactly when the next message is not an empty one that has to be taken |
| Transport.WholeIff | bytom/p2p/connection/channel.go:67-117 | When as many messages are left as were queued, they are the same in the same order |
| Transport.ReceiveKeepsWhole | bytom/p2p/connection/channel.go:105-117 | A packet that arrives never overflows and completes a message only when it is whole |
| Transport.RunKeepsSound | bytom/p2p/connection/connection.go:254-350 | After any order of events nothing has overflowed, and on every channel delivered, under way, being sent and waiting are together what was queued, less as many empty messages as it was passed over |
| Transport.DeliveredIsThinned | bytom/p2p/connection/connection.go:254-350 | What has been delivered is, so far, what was queued less some empty messages; when nothing is left it is all that was queued exactly when the channel was never passed over |
| Transport.DeliveredIsPrefix | bytom/p2p/connection/connection.go:254-350 | A channel that is never passed over delivers a prefix of what was queued, empty messages too |
| Transport.NonEmptyAreNeverLost | bytom/p2p/connection/connection.go:324-350 | A channel that is given no empty message loses none |
| Transport.CounterIsExact | bytom/p2p/connection/channel.go:122-143 | The counter is the number of messages not yet completely sent and of those that were lost; it is zero exactly when nothing waits and nothing was lost |
| Transport.EmptyMessageIsLost | bytom/p2p/connection/channel.go:70-78 | One run in which another channel is chosen and an empty message vanishes |
| Connection.Link.constructor | bytom/p2p/connection/connection.go:114-142 | Two ends with the same channels start the abstract system with empty lines |
| Connection.Link.TrySend | bytom/p2p/connection/connection.go:212-231 | On real channels: refused on an unknown channel or a full queue, and otherwise exactly the next event of the run |
| Connection.Link.SendMsgPacket | bytom/p2p/connection/connection.go:324-350 | The packet of a pending channel with the least ratio goes on the wire, exactly as the abstract system transmits; nothing happens exactly when no channel has anything |
| Connection.Link.RecvRoutine | bytom/p2p/connection/connection.go:297-316 | The first packet reaches its channel, exactly as the abstract system delivers, and what it completes is handed over; the connection stops exactly when that overflows or the channel is unknown, which never happens while all messages that were sent fit |
| Connection.Link.DeliversInOrder | bytom/p2p/connection/connection.go:254-350 | Whatever the order of calls on both ends, a channel has delivered a start of what it was given less some empty messages, and a prefix of it if none was empty |
| Connection.TransmitIsNext | bytom/p2p/connection/connection.go:324-350 | One packet of one channel and a refill of all the others, on the states of the objects, is a transmission of the abstract system |
| Connection.DeliverIsNext | bytom/p2p/connection/channel.go:103-117 | A packet received by its channel is a delivery of the abstract system |
| Nonce.IncrNonce | bytom/p2p/connection/secret_connection.go:206-214 | The loop with its early exit is counting up with carry |
| Nonce.IncrementedAddsOne | bytom/p2p/connection/secret_connection.go:206-214 | Counting up adds one modulo 2^192 |
| Nonce.Incr2Nonce | bytom/p2p/connection/secret_connection.go:200-204 | Counting up twice |
| Nonce.GenNonces | bytom/p2p/connection/secret_connection.go:225-234 | One hash and the same with its last bit flipped, the other way round on the other side |
| Nonce.DirectionsNeverMeet | bytom/p2p/connection/secret_connection.go:200-234 | No frame of one direction ever has the nonce of a frame of the other |
| Nonce.NoncesAreFresh | bytom/p2p/connection/secret_connection.go:200-214 | No nonce comes twice within 2^191 frames |
| Nonce.NoncesRepeat | bytom/p2p/connection/secret_connection.go:200-214 | After 2^191 frames the same nonce comes again |
| SecretConnection.ChunkOfFrame | bytom/p2p/connection/secret_connection.go:117-156 | The length and the data of a frame are read back |
| SecretConnection.Secret.Write | bytom/p2p/connection/secret_connection.go:138-166 | The frames of the data under successive nonces, and the nonce moves on by their number |
| SecretConnection.Secret.Read | bytom/p2p/connection/secret_connection.go:102-131 | Every case: leftover octets that are not counted, a frame, or which error |
| SecretConnection.OpenedFramed | bytom/p2p/connection/secret_connection.go:102-166 | The frames of a write are opened to the data, and the reader is then at the writer's nonce |
| SecretConnection.ReaderRecovers | bytom/p2p/connection/secret_connection.go:102-166 | Whatever was written in whatever pieces is what is read |
| SecretConnection.ReportedIff | bytom/p2p/connection/secret_connection.go:103-130 | A reader is told all the octets exactly when its buffer takes every chunk whole |
| SecretConnection.ReadAll | bytom/p2p/connection/secret_connection_test.go:120-140 | Calls of Read until nothing is left succeed exactly when the frames can be opened; what they report is the start of each chunk, and with a buffer for a whole frame it is what the frames open to |
| SecretConnection.WriteAll | bytom/p2p/connection/secret_connection_test.go:100-115 | Several calls of Write put the frames of all of it on the wire |
| SecretConnection.PiecesFitIff | bytom/p2p/connection/secret_connection.go:138-166 | The frames of several writes fit a buffer exactly when each piece, up to a whole frame of it, does |
| SecretConnection.Transfer | bytom/p2p/connection/secret_connection_test.go:83-190 | Two ends that made their nonces of one hash: what one writes in any pieces is what the other reads, exactly when the pieces fit the buffer it reads with, and always with a buffer for a whole frame |
| SecretConnection.SmallBufferRun | bytom/p2p/connection/secret_connection.go:102-131 | Two octets read with a buffer of one: the second arrives with a count of zero |
| OrphanManage.AddKeepsExact | bytom/protocol/orphan_manage.go:77-78 | Adding keeps the two-way index exact |
| OrphanManage.DeleteKeepsExact | bytom/protocol/orphan_manage.go:126-145 | Deleting keeps it exact, in a list of one and of more |
| OrphanManage.Manager.Add | bytom/protocol/orphan_manage.go:62-81 | A known block changes nothing; at the limit of 256 one of those that expire first makes room |
| OrphanManage.Manager.Delete | bytom/protocol/orphan_manage.go:91-145 | Exactly this block and its entry are gone |
| OrphanManage.Manager.DeleteLRU | bytom/protocol/orphan_manage.go:147-159 | The deleted block is one of earliest expiration |
| OrphanManage.Manager.OrphanExpire | bytom/protocol/orphan_manage.go:169-177 | Exactly the expired blocks are gone |
| Base32.QuantumIsReadBack | bytom/encoding/base32/base32.go:102-128 | The symbols of one to five octets determine them |
| Base32Laws.GroupsAreBits | bytom/encoding/base32/base32.go:102-128 | The eight groups are the forty bits of five octets, the first bit first |
| Base32Laws.SymbolsHoldBits | bytom/encoding/base32/base32.go:130-168 | A last quantum has as many symbols as its bits need |
| Base32Laws.NewlinesAre | bytom/encoding/base32/base32.go:57-62 | The line ends that are dropped are carriage return and line feed |
| Base32.Encode | bytom/encoding/base32/base32.go:86-171 | The output starts with the encoding, in a buffer of its length or a longer one |
| Base32.EncodedLength | bytom/encoding/base32/base32.go:258-265 | The announced length is exact, with padding and without |
| Base32.EncodeToString | bytom/encoding/base32/base32.go:173-178 | The encoding and nothing else |
| Base32.DecodedEncoded | bytom/encoding/base32/base32.go:281-370 | Decoding what was encoded gives it back, with padding and without |
| Base32Stream.TakeQuantum | bytom/encoding/base32/base32.go:288-328 | The inner loop takes eight digits, or fewer at a proper end, or finds the input corrupt |
| Base32Stream.RoomForQuantum | bytom/encoding/base32/base32.go:505-513 | The announced length has room for every quantum |
| Base32Stream.DecodeInto | bytom/encoding/base32/base32.go:281-370 | For every input, nothing is written past the announced length; what was written is the octets of the well-formed quanta up to the end or to the first that is not, and the input is accepted exactly when it can be decoded |
| Base32Stream.SalvagedIsDecoded | bytom/encoding/base32/base32.go:281-370 | For input that can be decoded that is all of it |
| Base32Stream.DecodeString | bytom/encoding/base32/base32.go:383-389 | Line ends are dropped, then the input is decoded |
| Base32Stream.RoundTrip | bytom/encoding/base32/base32.go:173-389 | Encoding and decoding again gives the octets, in a text of the announced length |
| Base32Stream.EncodedInPieces | bytom/encoding/base32/base32.go:189-235 | Cutting at a multiple of five does not change the encoding |
| Base32Stream.Encoder.Write | bytom/encoding/base32/base32.go:189-235 | What has been written is the encoding of all whole quanta so far; the last few octets wait |
| Base32Stream.Encoder.Close | bytom/encoding/base32/base32.go:237-247 | The output starts with the encoding of all the data, however it was cut, and is that encoding exactly if there is padding or nothing waited; eight octets are appended when something waited |
| Base32Stream.ClosedTooLong | bytom/encoding/base32/base32.go:237-247 | A run without padding: one octet, whose encoding has two symbols, is closed with eight |
| Base32Laws.RoundTripIff | bytom/encoding/base32/base32.go:39-80 | For any 32 octets as alphabet and any padding character: whatever is encoded is read back exactly when the symbols differ, none is a line end or the padding character, and that is no line end; without padding the octet 255 counts as one |
| Base32Laws.NewlineIsDropped | bytom/encoding/base32/base32.go:383-389 | A symbol that is a line end: one octet that is not read back |
| Base32Laws.PaddingIsDropped | bytom/encoding/base32/base32.go:383-389 | A padding character that is a line end: one octet that is not read back |
| Base32Laws.SymbolEndsInput | bytom/encoding/base32/base32.go:299-322 | A symbol that is taken for padding, 255 without padding: two octets that are not read back |
| Base32Laws.SymbolHasTwoDigits | bytom/encoding/base32/base32.go:48-50 | A symbol that comes twice in the alphabet: one octet that is not read back |

## Left out

- Goroutines, locks and timers: each locked method is one atomic step, and times are numbers that the caller gives. In particular a lookup that reads the database before, and fills the cache after, a concurrent reorganisation is not modelled.
- The wallet database, LevelDB and JSON: the stores are maps, a batch is one update, and their read errors do not occur.
- UtxoKeeper.Keeper.Reserve: requires an amount above zero unless nothing is free, since the source reads the front of an empty list otherwise (utxo_keeper.go:275-285); the value of the records searched stays below 2^64 and reservation numbers do not wrap.
- Utxo records: addresses, programs, sources and state data are not modelled; equal amounts may be sorted in any order.
- SpendChain.SpendAccountChain: the total visible value and the gas stay below 2^63, as the source's int64 balances need; signing and the assembly of transactions are reduced to their outcomes.
- SpendChain.ReserveBtmUtxoChain: no other thread reserves between its passes.
- TxPool.TxPool.ProcessTransaction: the store's view is fixed, and transaction ids name transactions. The capacity of 10000 is a parameter.
- The pool's error cache, events, dust rules and the fee and weight fields; the address of a loop variable at txpool.go:309-311 is given its meaning per turn.
- ScryptKey.Key: PBKDF2 is any function that returns the requested number of octets; r and p are positive.
- Text outside ASCII in bech32 and addresses: case is changed for ASCII letters only. The positions in error messages are not modelled, there and in base32.
- ForkChoice.BestNode: the hash is compared as the number that its hexadecimal text writes.
- CheckpointTree.MakeTree: requires that parents are lower than their children, since the queue need not empty otherwise; the parent pointers that it sets in the checkpoints, newChild and the rest of Casper are left out.
- BlockChain.Chain.ReorganizeChain: the utxo and contract views either accept or refuse, and validation decides which restored transactions enter the pool; heights of headers grow by one from parent to child, as block validation checks.
- The loop of saveSubBlock over a list that is shifted while it is read.
- Locator.BlockLocator: the main chain does not change during the call, and has at most 2^63 blocks, so that the doubled step does not wrap before the end.
- Locator.LocateHeaders: the responder's main chain is a list of headers by height; entries above the best block are those of MainChain.StaleAboveBest.
- EntryHash.EntryIDIdentifies: SHA-3 is any function; a collision of it on the inputs at hand is excluded by the preconditions. Witness fields, which are not hashed, are not modelled.
- Encoding.Reader.ReadUvarint: the standard library's reader is modelled with its overflow checks; the reader accepts longer encodings of a number than the writer makes.
- Encoding.ReadExtensibleString: the consumer is a function of the string.
- Encoding.Reader.ReadVarstrList: io.EOF and io.ErrUnexpectedEOF are one error, as in the other readers, and what is left of the buffer after an error is not stated.
- Channel.Channel.RecvMsgPacket: messages are values; that a delivered message shares its array with the next one is not modelled. Blocking sends, the wire format of packets, pings and the decay of the traffic count are left out, and the ratio is a real number.
- SecretConnection.Secret.Write: the sealing is ideal, the connection does not fail, and the handshake is left out.
- Connection.Link.SendMsgPacket: the counts of recent traffic are below 2^63, and a write to the connection does not fail.
- Base32: an alphabet has 32 octets, as its documentation asks; NewEncoding does not check it.
- Base32Stream.Encoder: errors of the underlying writer and the streaming decoder are left out.
- OrphanManage: Get, which reads through a missing entry, and the sharing of lists with readers.
- UtxoViewpoint, ContractViewpoint, the virtual machine, transaction validation, network discovery, peers, banning, the API and the key store.
