# A verified model of the bitcoin-explorer core

This project models, in Dafny, the part of bitcoin-explorer that reads the chain off a Bitcoin
Core data directory and replaces every transaction input by the output it spends, and proves
what that code promises. To check it, run
`dafny verify dfyconfig.toml`.

## What is modelled

**The two-stage pipeline.** `Pipeline` is a transition system: heights are claimed in order,
first-stage workers insert the outputs of their block into one shared store, blocks are handed
over in order, second-stage workers look their inputs up and delete them one at a time, and
finished blocks are emitted in order. Workers of both stages interleave freely. `InMemPipeline`
is the same machine over the in-memory store, cut at each lock: look the txid up, take the slot
and test whether any is left, drop the key. The reference is the sequential run of `FlatStore`,
one block after the other. Every reachable state of either machine has emitted a prefix of it.

**The stores.** `OnDiskUtxo.OnDiskStore` keeps encoded outputs under 36-byte keys and works in
batch; `InMemUtxo.InMemStore` keeps slot arrays (`VecMap.VecMap`) under txids and works input by
input. Both are classes proved against the flat map they stand for. `Schedules` shows that their
two orders of work, uninterrupted, are two schedules of one pipeline worker; `StoreRefinement`
that over a valid chain they give the same blocks and leave the same outputs unspent;
`Conservation` and `InMemConservation` that no output is lost or attached twice on the way.

**The slow look-up.** `TxIndex` and `TxLookup` model the transaction index and the connector that
reads every previous transaction from disk. `CacheAgreement` says exactly where it agrees with
the pipeline, and `DataDirectory` carries everything down to bytes: over written index entries and
masked block files that hold a valid chain, a finished run has emitted every block of it.

**What is underneath.** `BlockIndex` (choosing the best chain and the two look-ups over it),
`IndexRecord` and `Varint` (the records of the index database and their integers), `XorReader` and
`BlkFile` (masked block files and the blocks and transactions in them), `Multisig` (recognising
bare multi-signature scripts and extracting their addresses), `Bits` (what the bitwise operators
do to numbers).

**Other chains.** `ForwardReferences` says what becomes of the pipeline when inputs may refer to
outputs of later blocks, and exactly when the schedule does not matter there.

## Assumptions

- The library that runs the stages in parallel claims items in order, hands results on in input
  order and hands nothing on after the first failed item. These are the step rules of both
  pipeline machines; nothing else is assumed about scheduling.
- A *valid chain* has no repeated txid, spends no outpoint twice, and every non-null input refers
  to an output of the same or an earlier block. The bare agreement of the two stores on one block
  needs only that the block does not repeat an outpoint, and that is proved to be necessary.
- Encoding of outputs is a parameter of which only decode-after-encode is assumed. The block hash
  is an arbitrary function; nothing assumes that it has no collisions. Transaction ids are part of
  the transactions.
- A block that cannot be read is an event of the environment: a fetch may fail at any height. So
  heights past the end of the chain are heights whose fetch always fails.

## Where the code and its documentation differ

- `get_connected_block` is documented, and used in the tests, as the same result as the connected
  iterator, only slower. It is not on every valid chain: it refuses a transaction with a null input
  that is not a coinbase, which the iterator accepts (`CacheAgreement.NullInputIsRefused`). It also
  answers every output number of the genesis transaction with that transaction's first output;
  `GenesisOutputIsMistaken` shows what that would do, but it cannot arise for the txid built into
  the code, which is that of a transaction with one output. `LookupAgreesIff` gives the exact
  condition, and `SafeWithOneGenesisOutputIff` what it comes to with one genesis output: no
  transaction other than a coinbase has a null input.
- The loader keys records by the hash of their header and ignores the hash in the database key. Of
  two different records with one header the later is loaded, even where the earlier is the first of
  greatest height (`BlockIndex.LoadedTopIsFirstHighestIff`, `BlockIndex.LaterRecordReplacesTip`).
- `XorReader::read` and `XorReader::seek` ignore bytes that `fill_buf` has buffered, so a caller
  that mixes them can skip or repeat bytes. `XorReader.SeamlessIffOrderly` says exactly when, and
  `XorReader.ReadBehindBufferSkips` and `SeekBehindBufferRepeats` are examples.
- `read_varint` is exact up to 64 bits and loses the high bits of longer codes
  (`Varint.MachineValueExactIff`); the first code it loses is that of 2^64 (`Varint.LongCodeIsLost`).

## Model

| member | source | states |
|---|---|---|
| Pipeline.StepInv | src/iter/connected_block_iter.rs:90-110 | Every step of either stage keeps the invariant: the store is exactly what was inserted and not yet taken, each worker's answers are the true origins of its inputs, each finished block is the sequential one |
| Pipeline.FirstStageIsAhead | src/iter/connected_block_iter.rs:90-110 | When the second stage works on height h, the first stage has written all heights up to h |
| Pipeline.PendingInputIsInStore | src/iter/fetch_connected_async.rs:88-97 | In every state the invariant allows, an output that a worker has yet to delete is in the store with its right value |
| Pipeline.ReachableInv | src/iter/connected_block_iter.rs:66-118 | The invariant holds in every state that any schedule of the two stages can reach |
| Pipeline.EmittedIsSequential | src/iter/connected_block_iter.rs:90-136 | Whatever the schedule, the emitted blocks are those of the sequential run for heights 0, 1, 2, ... in order, and no worker ever reports bad data |
| Pipeline.StuckRunIsComplete | src/iter/connected_block_iter.rs:90-136 | A run with no step left, other than first-stage work after an unreadable height, has emitted every block before the first unreadable one: no worker is ever stuck |
| Pipeline.RunsAreBounded | src/iter/connected_block_iter.rs:90-136 | Every run ends: no schedule is longer than a measure of the start state |
| Pipeline.FinishedRunIsSequential | src/iter/connected_block_iter.rs:90-136 | A finished run has emitted exactly the sequential result, cut off before the first height that could not be read |
| Pipeline.FinishedIsReachable | src/iter/connected_block_iter.rs:90-136 | From every state the invariant allows, a finished state can be reached |
| FlatStore.SequentialStoreHoldsUnspent | src/iter/fetch_connected_async.rs:33-130 | After the first h blocks the sequential store holds exactly the outputs they created and did not spend, with their values |
| FlatStore.SequentialBlockConnects | src/iter/fetch_connected_async.rs:62-130 | On a valid chain the sequential run connects every block, each non-null input to the output it refers to |
| FlatStore.OrdersAgreeIff | src/iter/fetch_connected_async.rs:62-244 | The batch order and the one-by-one order give the same result on a block from every store, and on success the same store, if and only if the block repeats no outpoint |
| FlatStore.OrdersAgreeFromStoreIff | src/iter/fetch_connected_async.rs:62-244 | From one given store, the two orders agree on a block if and only if it repeats no outpoint or one of its outpoints is missing |
| Schedules.BatchIsASchedule | src/iter/fetch_connected_async.rs:88-129 | From every state, a worker that reads all keys, deletes all keys and then looks at the answers ends with the result and store of the on-disk version |
| Schedules.OneByOneIsASchedule | src/iter/fetch_connected_async.rs:198-243 | From every state, a worker that takes each output at the input that spends it ends with the result and store of the in-memory version |
| ForwardReferences.ScheduleDoesNotMatterIff | src/iter/connected_block_iter.rs:90-136 | For every chain with distinct txids and no outpoint spent twice: all schedules emit only blocks of the sequential run if and only if the first block refused there, if any, has an input that refers to no output of the chain at all |
| ForwardReferences.RunKeepsWeakInv | src/iter/fetch_connected_async.rs:33-130 | On such chains, without any assumption about what inputs refer to, every run keeps: stored outputs have their right value, what was inserted and not taken is stored, an answer is the origin of its input and missing only if no block so far created it |
| ForwardReferences.SchedulesDiffer | src/iter/connected_block_iter.rs:90-110 | Two blocks, the first spending an output of the second: one schedule emits the first block, another refuses it |
| StoreRefinement.StoresAgreeOnEveryBlock | src/iter/fetch_connected_async.rs:33-244 | Over a valid chain the in-memory version, run block by block, gives the connected block of the on-disk version at every height and leaves the same outputs unspent |
| StoreRefinement.ReplacingIsInserting | src/iter/fetch_connected_async.rs:158-187 | On a valid chain, entering a transaction's slot array under its txid replaces nothing |
| Conservation.OutputsAreConserved | src/iter/fetch_connected_async.rs:42-127 | In every reachable state the inserted outputs are the disjoint union of those in the store and those taken, the taken ones are attached once each and in order, and value created equals value unspent plus value attached |
| Conservation.FinalBalance | src/iter/fetch_connected_async.rs:42-127 | When all blocks are emitted, the value of all outputs of the chain is that of the remaining store plus that of the emitted inputs |
| InMemConservation.SlotsAreConserved | src/iter/fetch_connected_async.rs:158-231 | In every reachable state of the in-memory pipeline the outputs put into slots are the disjoint union of those still in slots and those taken by workers, once each and in order, and the values add up |
| InMemConservation.SlotsBalanceAtTheEnd | src/iter/fetch_connected_async.rs:158-231 | When all blocks are emitted, the slots and the emitted inputs together hold exactly the value of all outputs of the chain |
| InMemPipeline.StepSimulates | src/iter/fetch_connected_async.rs:150-244 | Each lock step of the in-memory version is a piece of a run of the flat pipeline: none, one or two of its events |
| InMemPipeline.StepInv | src/iter/fetch_connected_async.rs:150-244 | Every lock step keeps: keys lead to the array of their transaction, arrays count their slots right, an array out of the map is empty, a worker holds the array of its own input |
| InMemRuns.ReachableImplements | src/iter/fetch_connected_async.rs:150-244 | Every reachable in-memory state implements a reachable state of the flat pipeline; distinct txids suffice |
| InMemRuns.EmittedIsSequential | src/iter/connected_block_iter.rs:100-136 | The in-memory pipeline emits the blocks of the sequential run in order under every interleaving of its lock steps |
| InMemRuns.NoWorkerMissesItsOutput | src/iter/fetch_connected_async.rs:208-239 | In no reachable state does a worker find its txid or its slot missing: before the look-up the txid has a key, while it holds the array the slot is occupied, and what it took is the right output |
| InMemRuns.KeysAreDroppedEmpty | src/iter/fetch_connected_async.rs:217-228 | A key is dropped only when every slot of its array is taken, an array without a key holds no output, and size equals the number of occupied slots |
| InMemRuns.NoKeyIsKeptForNothing | src/iter/fetch_connected_async.rs:217-228 | In every reachable state an array in the map with no slot left belongs to a transaction without outputs, or a worker is about to drop its key |
| InMemRuns.EmptyArraysKeepTheirKeys | src/iter/fetch_connected_async.rs:217-228 | On a valid chain the key of a transaction without outputs is never dropped, as nothing is ever taken from its array |
| InMemRuns.RunsAreBounded | src/iter/connected_block_iter.rs:100-136 | Every run of the in-memory pipeline ends |
| InMemRuns.FinishedRunIsSequential | src/iter/connected_block_iter.rs:100-136 | A finished in-memory run has emitted exactly the sequential result up to the first unreadable height |
| InMemRuns.FinishedIsReachable | src/iter/connected_block_iter.rs:100-136 | The same for the in-memory pipeline |
| OnDiskUtxo.TxOutKeyIsInjective | src/iter/fetch_connected_async.rs:16-24 | Keys are 36 bytes and different outpoints never share one |
| OnDiskUtxo.OnDiskStore.UpdateUnspentCache | src/iter/fetch_connected_async.rs:34-60 | The store becomes the old one with every output of the block inserted, through the byte keys and encoded values |
| OnDiskUtxo.CollectKeys | src/iter/fetch_connected_async.rs:71-86 | The keys are those of the non-null inputs of all transactions in block order |
| OnDiskUtxo.OnDiskStore.DeleteKeys | src/iter/fetch_connected_async.rs:92-97 | Exactly the collected outpoints leave the store |
| OnDiskUtxo.AttachInputs | src/iter/fetch_connected_async.rs:105-125 | The cursor equals the number of non-null inputs visited, so each input gets the answer to its own key, never out of range; a missing answer fails |
| OnDiskUtxo.AttachAnswers | src/iter/fetch_connected_async.rs:99-129 | The block is assembled from the answers if all were found and refused otherwise |
| OnDiskUtxo.OnDiskStore.ConnectOutpoints | src/iter/fetch_connected_async.rs:63-130 | Result and new store are those of the batch order on the flat store, on success and on failure |
| InMemUtxo.InMemStore.UpdateUnspentCache | src/iter/fetch_connected_async.rs:150-188 | The store becomes the old one with each transaction's outputs entered under its txid |
| InMemUtxo.InMemStore.TakeOutput | src/iter/fetch_connected_async.rs:211-238 | Gives the stored output and removes exactly it; dropping the key of an emptied array loses nothing |
| InMemUtxo.InMemStore.ConnectOutpoints | src/iter/fetch_connected_async.rs:191-244 | Result and new store are those of the one-by-one order on the flat store, on success and on failure |
| InMemUtxo.ReplaceIsInsert | src/iter/fetch_connected_async.rs:158-187 | With distinct txids that the store does not know, entering slot arrays is inserting outputs |
| VecMap.FromVecCountsIff | src/iter/util.rs:24-29 | A new map counts right exactly when all slots are occupied, short of 2^32 slots |
| VecMap.RemovalKeepsCount | src/iter/util.rs:48-63 | Removal keeps size equal to the number of occupied slots, so size zero means all slots are taken, and size never goes below zero |
| VecMap.RemovedOnce | src/iter/util.rs:48-63 | A second removal at an index finds nothing and changes nothing, and no other slot is affected |
| VecMap.VecMap.FromVec | src/iter/util.rs:24-29 | The new map holds the given slots; its count is right when all are occupied and there are fewer than 2^32 |
| VecMap.VecMap.IsEmpty | src/iter/util.rs:33-35 | Tests the size field, which for a map that counts right means that every slot is taken |
| VecMap.VecMap.Remove | src/iter/util.rs:48-63 | Takes the slot in place and decrements size if it was occupied, out-of-range indices included; a map that counts right goes on counting right |
| CacheAgreement.LookupAgreesIff | src/api.rs:420-424 | Over a valid chain with a faithful index, the look-up at h gives the pipeline's block if and only if every transaction is a coinbase or has no null input, and spends only genesis outputs like the first |
| CacheAgreement.TxAgreesIff | src/parser/block_types/connected_block.rs:293-319 | One transaction is connected with the right outputs exactly under that condition |
| CacheAgreement.InputAgreesIff | src/parser/block_types/connected_block.rs:321-372 | Every input of a valid chain is found, and rightly unless it spends a genesis output that differs from the first |
| CacheAgreement.SafeWithOneGenesisOutputIff | src/parser/block_types/connected_block.rs:339-349 | With one output of the genesis transaction, the look-up is safe at a height exactly when every transaction there is a coinbase or has no null input |
| CacheAgreement.NullInputIsRefused | src/parser/block_types/connected_block.rs:301-318 | After a coinbase with one output, a block with a transaction of two null inputs is on a valid chain and connected by the pipeline; with every faithful index the look-up refuses it with two missing outputs |
| CacheAgreement.GenesisOutputIsMistaken | src/parser/block_types/connected_block.rs:339-349 | On a valid chain whose genesis transaction had two different outputs, the look-up attaches the first where the second is spent and gives another block than the pipeline |
| CacheAgreement.PairCanBeFiled | src/parser/block_types/connected_block.rs:336-372 | Both examples have a faithful index: any entry and reader that lead to the second transaction |
| CacheAgreement.PipelineAgreesIff | tests/test_api.rs:105-116 | In every reachable state of the pipeline each emitted block is the look-up's block exactly where the look-up is safe |
| CacheAgreement.InMemPipelineAgreesIff | tests/test_api.rs:105-116 | The same for every reachable state of the in-memory pipeline |
| TxLookup.ConnectBlockInputs | src/parser/block_types/connected_block.rs:240-291 | The batched connector gives a panic if any look-up ends in one, and otherwise what connecting the transactions one by one gives; the queue always has an answer for each input left |
| TxLookup.BatchedIsEachIff | src/parser/block_types/connected_block.rs:240-319 | The batched connector equals connecting the transactions one by one in order, errors included, exactly when no transaction with missing outputs comes before one that panics |
| TxLookup.ConnectInput | src/parser/block_types/connected_block.rs:325-372 | The look-up cascade for one input, with the panic for a first block that lacks the genesis output as an outcome |
| TxLookup.PopOutputs | src/parser/block_types/connected_block.rs:261-272 | Takes exactly the answers of one transaction from the front of the queue and leaves those of the following ones |
| TxLookup.ConnectEachFailsLikeFirst | src/parser/block_types/connected_block.rs:274-280 | One by one, a block fails exactly when some transaction does, with the error of the first that does |
| TxLookup.GetConnectedBlock | src/api.rs:420-424 | The three ways to fail before connecting, in their order, and otherwise what the batched connector gives |
| TxIndex.PositionRoundTrip | src/parser/tx_index.rs:80-102 | An index entry decodes to the position it was written for, whatever bytes follow |
| TxIndex.GetTxPosition | src/parser/tx_index.rs:80-102 | The entry under the letter t and the txid, decoded; a missing entry and a short one are errors |
| TxIndex.OpenTxDb | src/parser/tx_index.rs:38-69 | The reverse table, built in one pass; over a loaded chain it leads the position of block h to height h exactly when block h is the last one there |
| TxIndex.HeightsMeaning | src/parser/tx_index.rs:52-56 | Over a loaded chain a position leads to height h exactly when block h lies there and no later block does |
| TxIndex.HeightsAreRightIff | src/parser/tx_index.rs:52-56 | The reverse table gives every block its own height exactly when no two blocks lie at one position |
| TxIndex.HeightIsFoundIff | src/parser/tx_index.rs:104-116 | With distinct positions a transaction whose entry decodes to a position has height h exactly when the block at h lies there; there is at most one such h, and an error exactly when there is none |
| TxIndex.GetBlockHeight | src/parser/tx_index.rs:104-116 | The genesis transaction is at height 0; a missing entry and a position that no block of the table has are their own errors, the latter in exactly that case |
| BlockIndex.LoadBlockIndex | src/parser/block_index.rs:139-197 | Loading succeeds exactly when every entry decodes and, with a greatest height of 0 or more, every ancestor of the tip is present at its height; the result is then that chain, down from the record kept under the hash of the first highest valid record in scan order |
| BlockIndex.ScanEntries | src/parser/block_index.rs:146-171 | Fails exactly when an index entry does not decode; otherwise it has the valid records by hash and the hash and height of the first highest of them |
| BlockIndex.WalkBack | src/parser/block_index.rs:173-196 | The walk ends, and from a height of 0 or more meets neither panic exactly when the whole ancestry of the tip is there at the right heights; what it returns is that ancestry in ascending order; a negative height is a capacity panic, but -1 gives an empty list in a build without overflow checks |
| BlockIndex.LoadedChainIsLinked | src/parser/block_index.rs:176-193 | A loaded chain has height i at i, only valid records, parent hashes that link, and pairwise different hashes, with no assumption about the hash function |
| BlockIndex.FirstHighestIsUnique | src/parser/block_index.rs:159-167 | There is only one first highest record |
| BlockIndex.LoadedTopIsFirstHighestIff | src/parser/block_index.rs:158-179 | The loaded chain ends in the last record scanned under the tip's hash; so it ends in the first highest record if and only if these two are equal |
| BlockIndex.LaterRecordReplacesTip | src/parser/block_index.rs:158-168 | Two records with one header: the first is the first highest, the second is loaded |
| BlockIndex.HeldChainIsLoaded | src/parser/block_index.rs:139-197 | If the database holds the encoded records of a linked chain, nothing else under their hashes and nothing else as high as its top, the loader gives back exactly that chain |
| BlockIndex.NewIndex | src/parser/block_index.rs:115-128 | Succeeds exactly when the whole ancestry of the tip is there; the index is then a linked chain of as many records as the tip's height plus one, with the reverse table of its hashes, and otherwise the failure is the loader's |
| BlockIndex.LookupsAreInverse | src/api.rs:187-205 | On every loaded index the hash at h is x if and only if the height of x is h |
| BlockIndex.GetBlockCount | src/api.rs:142-151 | All blocks below the count were downloaded and the one at the count was not |
| IndexRecord.RecordRoundTrip | src/parser/block_index.rs:54-88 | A record comes back whole from its flag-dependent layout, with decoding stopped exactly at its end, if and only if its absent fields hold the decoder's markers |
| IndexRecord.ParsedIsCanonical | src/parser/block_index.rs:61-75 | Whatever is decoded, absent fields of the result are marked |
| IndexRecord.RecordCodeIsPrefixFree | src/parser/block_index.rs:54-88 | Among records with absent fields marked, no encoding is another's or the beginning of another's |
| IndexRecord.Decode | src/parser/block_index.rs:54-88 | The decoder, moving its cursor field by field, gives the record that the layout parses to, and an error when it parses to none |
| IndexRecord.FilePresence | src/parser/block_index.rs:61-65 | The file number is stored exactly when block data or undo data is |
| IndexRecord.ValidityMeaning | src/parser/block_index.rs:45-49 | Valid means height 0, or the low three status bits at five or more and the data bit set |
| Varint.EncodeThenValue | src/parser/reader.rs:29-41 | The reader's value inverts the offset base-128 encoder on every number, and codes are terminated |
| Varint.ValueThenEncode | src/parser/reader.rs:29-41 | Every terminated byte string is the code of its value |
| Varint.DistinctCodesDistinctValues | src/parser/reader.rs:29-41 | No two terminated strings have the same value |
| Varint.CodeLengthInterval | src/parser/reader.rs:29-41 | Codes of k bytes have exactly the values of one contiguous interval |
| Varint.MachineValueIsModular | src/parser/reader.rs:29-41 | The shift, or and increment loop on 64 bits computes the value modulo 2^64 for codes of every length |
| Varint.MachineValueExactIff | src/parser/reader.rs:29-41 | It is the exact value if and only if that is below 2^64 |
| Varint.LongCodeIsLost | src/parser/reader.rs:29-41 | The code of 2^64 is read as zero |
| Varint.NineBytesAreExact | src/parser/reader.rs:30-39 | For codes of up to nine bytes no step loses a bit: the shift keeps all, the or is an addition, the increment does not overflow |
| Varint.ReadBack | src/parser/reader.rs:29-41 | Writing a 64-bit number and reading gives it back and stops right after its code |
| Varint.Cursor.ReadVarint | src/parser/reader.rs:29-41 | The loop reads the first complete code, advances just past it, and fails exactly when there is none |
| XorReader.RunIsSound | src/parser/xor.rs:36-81 | In every run of read, fill, consume and seek a masked reader's position is the file's, and each byte delivered or buffered from position k is file[k] xor mask[k mod 8] |
| XorReader.SeamlessIffOrderly | src/parser/xor.rs:36-81 | Delivered, buffered and remaining bytes go on following each other exactly if a read of something or a seek meets an empty buffer |
| XorReader.RunSeamlessIffOrderly | src/parser/xor.rs:36-81 | A run is without gap or repetition all along if and only if it is orderly all along |
| XorReader.ReadBehindBufferSkips | src/parser/xor.rs:37-67 | For a file of two bytes, filling the buffer with one and then reading one delivers the second first |
| XorReader.SeekBehindBufferRepeats | src/parser/xor.rs:50-80 | Seeking back while a byte is buffered, consuming it and reading one delivers the same byte twice |
| XorReader.OrderlyRunDeliversFile | src/parser/xor.rs:36-81 | An orderly run has delivered exactly the unmasked file from the last seek on |
| XorReader.ReadsCompose | src/parser/xor.rs:37-47 | Two reads in a row are one read of both sizes: chunking does not matter |
| XorReader.UnmaskingUndoesMasking | src/parser/xor.rs:39-43 | Applying the mask twice gives the file back |
| XorReader.XorReader.constructor | src/parser/xor.rs:26-33 | A masked reader is in step exactly with a file that stands at its beginning |
| XorReader.XorReader.Read | src/parser/xor.rs:37-47 | Fills the front of the caller's buffer with unmasked bytes in place, leaves the rest, and gives nothing exactly at the end of the file or for an empty buffer; a failed read changes nothing |
| XorReader.XorReader.FillBuf | src/parser/xor.rs:50-67 | Reads at most 4096 bytes, only into an empty buffer, and comes back empty only at the end of the file; a failed read changes nothing |
| XorReader.XorReader.Consume | src/parser/xor.rs:69-71 | Delivers and drops bytes from the front of the buffer |
| XorReader.XorReader.Seek | src/parser/xor.rs:75-80 | Moves the file, takes the position over from it also when the seek fails, and keeps the buffer |
| XorReader.XorReader.ReadExact | src/parser/reader.rs:61-87 | For every division into partial reads, gives the same bytes and state as one read of them all; fails only at the end of the file, or on a device that fails |
| BlkFile.ReadRawBlock | src/parser/blk_file.rs:96-108 | The unmasked bytes offset .. offset + size, with size the little-endian word before the offset, for every division of reads; each failure as it occurs, that of the device included |
| BlkFile.WrittenBlockIsReadBack | src/parser/blk_file.rs:96-108 | A block written with its size into a masked file is read back whole from the position of its first byte |
| BlkFile.ReadU32 | src/parser/reader.rs:61-65 | The little-endian value of the next four unmasked bytes, or an error when the file ends before or the device fails |
| BlkFile.ReadStretch | src/parser/reader.rs:83-87 | The next `count` bytes of the unmasked file; an error only when the file ends before or the device fails |
| BlkFile.ReadTransaction | src/parser/blk_file.rs:115-134 | What the decoder makes of the unmasked file from data position + offset + 80 on, or the failure of the device |
| BlkFile.TransactionLiesInRawBlock | src/parser/blk_file.rs:96-134 | A transaction read by its position is the one the raw block holds at 80 + offset, for every decoder |
| DataDirectory.HoldingIsFaithful | src/parser/block_types/connected_block.rs:336-372 | A directory that holds the chain in masked, framed files, with an index entry for every transaction but the genesis one, leads the look-up to every block and transaction |
| DataDirectory.OpenDirectory | src/api.rs:103-125 | Opening succeeds exactly when the index loads and there is a block file, each failure with its cause; if the index entries hold a chain, the opened records are that chain, with the reverse table over them |
| DataDirectory.DirectoryIsConnected | src/iter/connected_block_iter.rs:90-136 | From bytes to connected blocks: over a directory opened on written index entries and masked files that hold a valid chain, a finished run whose fetches read that directory has emitted every block, each the sequential one and the look-up's exactly where the look-up is safe |
| DataDirectory.DirectoryIsConnectedInMemory | src/iter/connected_block_iter.rs:100-136 | The same for the in-memory pipeline |
| Multisig.IsMultisig | src/parser/script.rs:90-146 | True exactly for the error-free scripts OP_m, n pushes, OP_n, CHECKMULTISIG[VERIFY] with m and n from 1 to 16 |
| Multisig.NumKeysMeaning | src/parser/script.rs:181-208 | A count of at least one is read from OP_1 to OP_16 and from nothing else |
| Multisig.BuildIsInjective | src/parser/script.rs:90-146 | A recognised script determines m, its keys and its last opcode |
| Multisig.MultisigAddresses | src/parser/script.rs:149-174 | On recognised scripts no unreachable arm is met and the addresses are one per key in order, or none; on all others it panics |
| Bits.OrIsAdditionOnDisjointBits | src/parser/reader.rs:33 | The or of a shifted number and a number below the shift is their sum |
| Bits.AndOneBit | src/parser/block_index.rs:45-49 | Testing one bit with and is asking for that binary digit |
| Bits.LittleEndianRoundTrip | src/parser/reader.rs:61-65 | Four little-endian bytes give their number back |

## Left out

- Errors of RocksDB and LevelDB, temporary directories, scanning the blocks directory, symbolic links and file names: stores are maps and files are byte sequences. A store that cannot be created gives an empty iterator in the source.
- The inside of the parallel-iterator library and of rayon: their ordering contract is assumed as stated above, and parallel maps are maps.
- Consensus encoding of blocks, transactions and headers, txid and block hashing, public keys and addresses: parameters. The decoder of `BlkFile.ReadTransaction` is an arbitrary one that asks for bytes and is done; that it reads through `read_exact` only is assumed.
- Chains with repeated txids and blocks that spend one outpoint twice, for the results about whole runs: on these the two stores differ, as `FlatStore.OrdersAgreeIff` shows for the second.
- Chains with inputs that refer to outputs of later blocks, for the in-memory machine: `ForwardReferences` treats them for the flat pipeline.
- Conversions to compact and full blocks, serialization, display and error types: field copying. An output is stored and attached as it is.
- The chain of script predicates in `evaluate_script` other than the multi-signature part.
- `get_header`, `get_raw_block` and the plain block iterator: look-ups over members that are modelled.
- Varint.Cursor.ReadVarint: on codes whose value passes 2^64 the increment wraps, as in builds without overflow checks; with them the source panics. `Varint.NineBytesAreExact` shows where the two are the same.
- VecMap.VecMap.Remove: on a map that counts wrong (2^32 slots, or empty slots at the start) decrementing a size of 0 wraps, as in builds without overflow checks; with them the source panics.
- OnDiskUtxo.TxOutKeyIsInjective: the machine's byte order is taken to be little-endian; the order does not matter for the property.
- BlkFile.ReadRawBlock: an offset below 4 is one error of the model; in the source the subtraction panics with overflow checks, and without them the seek goes to a position no file accepts.
- InMemUtxo.InMemStore.UpdateUnspentCache: enters the arrays one by one, where the source collects them and enters all under one lock. In `InMemPipeline` it is one step.
- InMemUtxo.InMemStore.ConnectOutpoints: runs without other workers in between; `InMemPipeline` is the version with them, and `Schedules.OneByOneIsASchedule` relates the two.
- XorReader.XorReader.Consume: requires that no more is consumed than buffered; the source panics otherwise.
- XorReader.XorReader.Seek: asking the file for its position after the seek is taken to succeed.
- DataDirectory.OpenDirectory: opens the transaction index always; in the source it is optional, and without it `TxLookup.GetConnectedBlock` gives its first error.
