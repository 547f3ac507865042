/**
 From the bytes of a data directory to the connected blocks.

 Blocks lie framed in masked files at the positions their records give, transactions at the
 offsets the index gives. Such a directory is a faithful source for the look-up.
 */
module DataDirectory {
  import opened Bits
  import opened Wrappers
  import opened Chain
  import opened FlatStore
  import opened IndexRecord
  import opened XorReader
  import opened BlkFile
  import opened TxIndex
  import opened TxLookup
  import opened CacheAgreement
  import opened BlockIndex
  import P = Pipeline
  import M = InMemPipeline
  import InMemRuns

  /** Decoding of blocks and transactions. */
  datatype Codec = Codec(block: seq<byte> -> Option<Block>, tx: Decoder<Tx>)

  datatype Directory = Directory(records: seq<Record>, db: TxDb, blk: BlkFiles, mask: Option<Mask>, codec: Codec)

  function ReadBlock(dir: Directory, file: I32, dataPos: U32): Option<Block> {
    match RawBlockIn(dir.blk, dir.mask, file, dataPos)
    case Ok(raw) => dir.codec.block(raw)
    case Err(_) => None
  }

  function ReadTx(dir: Directory, file: I32, dataPos: U32, txOffset: U32): Option<Tx> {
    match TransactionIn(dir.blk, dir.mask, file, dataPos, txOffset, dir.codec.tx)
    case Ok(tx) => Some(tx)
    case Err(_) => None
  }

  function FilesOf(dir: Directory): Files {
    Files(dir.records, (file: I32, dataPos: U32) => ReadBlock(dir, file, dataPos),
          (file: I32, dataPos: U32, txOffset: U32) => ReadTx(dir, file, dataPos, txOffset))
  }

  // ---------- what the node has written ----------

  /** The serialized block `raw` lies, framed and masked, where the record says. */
  ghost predicate WrittenAt(dir: Directory, r: Record, raw: seq<byte>, before: seq<byte>, rest: seq<byte>) {
    && |raw| < 0x1_0000_0000 && |before| + 4 == r.dataPos
    && r.file in dir.blk && dir.blk[r.file] == Unmasked(dir.mask, Framed(before, raw, rest))
  }

  ghost predicate BlockIsWritten(dir: Directory, r: Record, raw: seq<byte>) {
    exists before, rest :: WrittenAt(dir, r, raw, before, rest)
  }

  /** `raw` decodes to the block, and each of its transactions from its offset after the header. */
  predicate Serializes(codec: Codec, raw: seq<byte>, b: Block, offsets: seq<U32>) {
    && codec.block(raw) == Some(b)
    && |offsets| == |b.txdata|
    && forall i :: 0 <= i < |offsets| ==>
         HEADER_SIZE + offsets[i] <= |raw|
         && DecodeStream(codec.tx, raw[HEADER_SIZE + offsets[i]..], 0) == Some(b.txdata[i])
  }

  /** Every transaction of the block but the genesis one has its entry. */
  predicate IsIndexed(db: TxDb, r: Record, b: Block, offsets: seq<U32>)
    requires |offsets| == |b.txdata|
  {
    forall i :: 0 <= i < |offsets| && !db.IsGenesisTx(b.txdata[i].txid) ==>
      IndexedAt(db, TxPosition(b.txdata[i].txid, r.file, r.dataPos, offsets[i]))
  }

  /** Block h of the chain, as the directory holds it. */
  ghost predicate BlockIsStored(dir: Directory, r: Record, b: Block) {
    exists raw, offsets :: StoredAs(dir, r, b, raw, offsets)
  }

  ghost predicate StoredAs(dir: Directory, r: Record, b: Block, raw: seq<byte>, offsets: seq<U32>) {
    BlockIsWritten(dir, r, raw) && Serializes(dir.codec, raw, b, offsets) && IsIndexed(dir.db, r, b, offsets)
  }

  ghost predicate Holds(dir: Directory, chain: seq<Block>) {
    && |dir.records| == |chain|
    && (chain != [] ==>
          chain[0].txdata != [] && chain[0].txdata[0].outputs != [] && dir.db.IsGenesisTx(chain[0].txdata[0].txid))
    && forall h :: 0 <= h < |chain| ==> BlockIsStored(dir, dir.records[h], chain[h])
  }

  // ---------- it is a faithful source ----------

  lemma StoredBlockIsRead(dir: Directory, r: Record, b: Block, raw: seq<byte>, offsets: seq<U32>)
    requires StoredAs(dir, r, b, raw, offsets)
    ensures RawBlockIn(dir.blk, dir.mask, r.file, r.dataPos) == Ok(raw)
    ensures ReadBlock(dir, r.file, r.dataPos) == Some(b)
  {
    var before, rest :| WrittenAt(dir, r, raw, before, rest);
    WrittenBlockIsReadBack(dir.blk, dir.mask, r.file, before, raw, rest);
    hide RawBlockIn, Unmasked, Framed, IsIndexed, BlockIsWritten;
  }

  lemma StoredTxIsRead(dir: Directory, r: Record, b: Block, raw: seq<byte>, offsets: seq<U32>, i: nat)
    requires StoredAs(dir, r, b, raw, offsets) && i < |b.txdata| && !dir.db.IsGenesisTx(b.txdata[i].txid)
    ensures TxIsFiled(dir.db, FilesOf(dir), b.txdata[i])
  {
    hide RawBlockIn, DecodeStream, BlockIsWritten, IndexedAt, TransactionIn, ReadBlock, TxPositionOf;
    StoredBlockIsRead(dir, r, b, raw, offsets);
    TransactionLiesInRawBlock(dir.blk, dir.mask, r.file, r.dataPos, offsets[i], dir.codec.tx, raw);
    var p := TxPosition(b.txdata[i].txid, r.file, r.dataPos, offsets[i]);
    IndexedIsFound(dir.db, p);
    assert FilesOf(dir).readTx(p.file, p.dataPos, p.txOffset) == Some(b.txdata[i]);
  }

  /** A directory that holds the chain leads the look-up to every block and transaction of it. */
  lemma HoldingIsFaithful(dir: Directory, chain: seq<Block>)
    requires Holds(dir, chain)
    ensures Faithful(dir.db, FilesOf(dir), chain)
  {
    hide StoredAs, TxIsFiled;
    forall h | 0 <= h < |chain|
      ensures BlockIsFiled(FilesOf(dir), chain, h)
      ensures forall i :: 0 <= i < |chain[h].txdata| && !dir.db.IsGenesisTx(chain[h].txdata[i].txid) ==>
        TxIsFiled(dir.db, FilesOf(dir), chain[h].txdata[i])
    {
      assert BlockIsStored(dir, dir.records[h], chain[h]);
      var raw, offsets :| StoredAs(dir, dir.records[h], chain[h], raw, offsets);
      StoredBlockIsRead(dir, dir.records[h], chain[h], raw, offsets);
      forall i | 0 <= i < |chain[h].txdata| && !dir.db.IsGenesisTx(chain[h].txdata[i].txid)
        ensures TxIsFiled(dir.db, FilesOf(dir), chain[h].txdata[i])
      {
        StoredTxIsRead(dir, dir.records[h], chain[h], raw, offsets, i);
      }
    }
  }

  // ---------- opening it ----------

  datatype OpenError = NotLoaded(cause: LoadResult) | EmptyBlockFiles

  /** Loads the block index, opens the transaction index over it, and takes the block files, of
      which there must be one. */
  method OpenDirectory(entries: seq<Entry>, hash: BlockHasher, overflowChecks: bool,
                       txEntries: map<seq<byte>, seq<byte>>, genesisTxid: Txid,
                       blk: BlkFiles, mask: Option<Mask>, codec: Codec)
    returns (r: Result<Directory, OpenError>)
    ensures r.Ok? <==> Loadable(entries, hash, overflowChecks) && blk != map[]
    ensures r.Err? && r.error.NotLoaded? ==>
      !r.error.cause.Loaded? && LoadsAs(entries, hash, overflowChecks, r.error.cause)
    ensures r.Err? && r.error.EmptyBlockFiles? ==> Loadable(entries, hash, overflowChecks) && blk == map[]
    ensures r.Ok? ==> LoadsAs(entries, hash, overflowChecks, Loaded(r.value.records))
    ensures r.Ok? ==> r.value.db == TxDb(txEntries, HeightsByPlace(r.value.records), genesisTxid)
    ensures r.Ok? ==> r.value.blk == blk && r.value.mask == mask && r.value.codec == codec
    ensures forall c :: HoldsChain(entries, hash, c) && blk != map[] ==> r.Ok? && r.value.records == c
  {
    hide Loadable, LoadsAs;
    var index := NewIndex(entries, hash, overflowChecks);
    forall c | HoldsChain(entries, hash, c) ensures index.Ok? && index.value.records == c {
      HeldChainIsLoaded(entries, hash, overflowChecks, c,
                        if index.Ok? then Loaded(index.value.records) else index.error);
    }
    if index.Err? {
      return Err(NotLoaded(index.error));
    }
    var db := OpenTxDb(txEntries, index.value, genesisTxid);
    if blk == map[] {
      return Err(EmptyBlockFiles);
    }
    r := Ok(Directory(index.value.records, db, blk, mask, codec));
  }

  // ---------- the pipeline over it ----------

  /** The block at height h can be read. */
  predicate CanRead(dir: Directory, h: nat) {
    h < |dir.records| && ReadBlock(dir, dir.records[h].file, dir.records[h].dataPos).Some?
  }

  /** Every fetch of the schedule succeeds exactly if the directory gives the block. */
  predicate FetchesFrom(dir: Directory, es: seq<P.Event>) {
    forall i :: 0 <= i < |es| && es[i].Fetch? ==> (es[i].readable <==> CanRead(dir, es[i].height))
  }

  predicate InMemFetchesFrom(dir: Directory, es: seq<M.Event>) {
    forall i :: 0 <= i < |es| && es[i].Fetch? ==> (es[i].readable <==> CanRead(dir, es[i].height))
  }

  lemma HeldBlockCanBeRead(dir: Directory, chain: seq<Block>, h: nat)
    requires Holds(dir, chain) && h < |chain|
    ensures CanRead(dir, h) && FilesOf(dir).readBlock(dir.records[h].file, dir.records[h].dataPos) == Some(chain[h])
  {
    HoldingIsFaithful(dir, chain);
    assert BlockIsFiled(FilesOf(dir), chain, h);
  }

  lemma {:induction false} NothingIsUnreadable(dir: Directory, chain: seq<Block>, es: seq<P.Event>)
    requires Holds(dir, chain) && FetchesFrom(dir, es) && P.Run(chain, P.Start(chain), es).Some?
    ensures forall h :: 0 <= h < |chain| ==> !P.Run(chain, P.Start(chain), es).value.jobs[h].Unreadable?
  {
    hide Holds, CanRead;
    if es == [] {
    } else {
      NothingIsUnreadable(dir, chain, es[..|es| - 1]);
      if es[|es| - 1].Fetch? {
        HeldBlockCanBeRead(dir, chain, es[|es| - 1].height);
      }
    }
  }

  lemma {:induction false} InMemNothingIsUnreadable(dir: Directory, chain: seq<Block>, es: seq<M.Event>)
    requires Holds(dir, chain) && InMemFetchesFrom(dir, es) && M.Run(chain, M.Start(chain), es).Some?
    ensures forall h :: 0 <= h < |chain| ==> !M.Run(chain, M.Start(chain), es).value.jobs[h].Unreadable?
  {
    hide Holds, CanRead;
    if es == [] {
    } else {
      InMemNothingIsUnreadable(dir, chain, es[..|es| - 1]);
      if es[|es| - 1].Fetch? {
        HeldBlockCanBeRead(dir, chain, es[|es| - 1].height);
      }
    }
  }

  /** The database and the files of `dir` hold the chain, and `dir` was opened from them. */
  ghost predicate OpenedOn(dir: Directory, entries: seq<Entry>, hash: BlockHasher, overflowChecks: bool,
                           records: seq<Record>, chain: seq<Block>)
  {
    && LoadsAs(entries, hash, overflowChecks, Loaded(dir.records))
    && HoldsChain(entries, hash, records)
    && Holds(dir.(records := records), chain)
  }

  lemma OpenedDirectoryHolds(dir: Directory, entries: seq<Entry>, hash: BlockHasher, overflowChecks: bool,
                             records: seq<Record>, chain: seq<Block>)
    requires OpenedOn(dir, entries, hash, overflowChecks, records, chain)
    ensures dir.records == records && Holds(dir, chain)
  {
    HeldChainIsLoaded(entries, hash, overflowChecks, records, Loaded(dir.records));
    assert dir.(records := records) == dir;
    hide LoadsAs, HoldsChain, Holds;
  }

  /** The emitted block of height h is the sequential one, and the one that the look-up reads from
      disk exactly where the look-up is safe. */
  ghost predicate EmittedRight(dir: Directory, chain: seq<Block>, h: nat, block: ConnectedBlock)
    requires h < |chain|
  {
    && Some(block) == SequentialBlock(chain, h)
    && (ConnectedBlockAt(Some(dir.db), FilesOf(dir), h) == Ok(block) <==> LookupSafe(chain, h))
  }

  lemma SequentialIsRight(dir: Directory, chain: seq<Block>, h: nat, block: ConnectedBlock)
    requires ValidChain(chain) && Holds(dir, chain) && h < |chain| && Some(block) == SequentialBlock(chain, h)
    ensures EmittedRight(dir, chain, h, block)
  {
    HoldingIsFaithful(dir, chain);
    LookupAgreesIff(dir.db, FilesOf(dir), chain, h);
    hide ValidChain, ConnectedBlockAt, LookupSafe, FilesOf, SequentialBlock;
  }

  /** Every block of the chain was emitted, and rightly. */
  ghost predicate AllEmittedRight(dir: Directory, chain: seq<Block>, emitted: seq<ConnectedBlock>) {
    |emitted| == |chain| && forall h :: 0 <= h < |chain| ==> EmittedRight(dir, chain, h, emitted[h])
  }

  lemma SequentialAreRight(dir: Directory, chain: seq<Block>, emitted: seq<ConnectedBlock>)
    requires ValidChain(chain) && Holds(dir, chain) && |emitted| == |chain|
    requires forall h :: 0 <= h < |chain| ==> Some(emitted[h]) == SequentialBlock(chain, h)
    ensures AllEmittedRight(dir, chain, emitted)
  {
    hide ValidChain, Holds, EmittedRight, SequentialBlock;
    forall h | 0 <= h < |chain| ensures EmittedRight(dir, chain, h, emitted[h]) {
      SequentialIsRight(dir, chain, h, emitted[h]);
    }
  }

  /** A run that reads this directory and is finished in `s`. */
  ghost predicate FinishedRun(dir: Directory, chain: seq<Block>, es: seq<P.Event>, s: P.State) {
    P.Run(chain, P.Start(chain), es) == Some(s) && FetchesFrom(dir, es) && P.Finished(chain, s)
  }

  ghost predicate InMemFinishedRun(dir: Directory, chain: seq<Block>, es: seq<M.Event>, s: M.State) {
    M.Run(chain, M.Start(chain), es) == Some(s) && InMemFetchesFrom(dir, es) && InMemRuns.Finished(chain, s)
  }

  /** From the bytes of a data directory to the connected blocks: opened on written index entries
      and masked files that hold a valid chain, a finished run of the pipeline whose fetches read
      that directory has emitted every block of the chain, each of them right. */
  lemma DirectoryIsConnected(dir: Directory, entries: seq<Entry>, hash: BlockHasher, overflowChecks: bool,
                             records: seq<Record>, chain: seq<Block>, es: seq<P.Event>, s: P.State)
    requires ValidChain(chain) && OpenedOn(dir, entries, hash, overflowChecks, records, chain)
    requires FinishedRun(dir, chain, es, s)
    ensures AllEmittedRight(dir, chain, s.emitted)
  {
    hide OpenedOn, ValidChain, Holds, P.Run, FetchesFrom, AllEmittedRight, P.Finished, SequentialBlock;
    OpenedDirectoryHolds(dir, entries, hash, overflowChecks, records, chain);
    NothingIsUnreadable(dir, chain, es);
    assert P.Reachable(chain, s);
    P.FinishedRunIsSequential(chain, s);
    P.EmittedIsSequential(chain, s);
    SequentialAreRight(dir, chain, s.emitted);
  }

  /** The same for the in-memory pipeline. */
  lemma DirectoryIsConnectedInMemory(dir: Directory, entries: seq<Entry>, hash: BlockHasher, overflowChecks: bool,
                                     records: seq<Record>, chain: seq<Block>, es: seq<M.Event>, s: M.State)
    requires ValidChain(chain) && OpenedOn(dir, entries, hash, overflowChecks, records, chain)
    requires InMemFinishedRun(dir, chain, es, s)
    ensures AllEmittedRight(dir, chain, s.emitted)
  {
    hide OpenedOn, ValidChain, Holds, M.Run, InMemFetchesFrom, AllEmittedRight, InMemRuns.Finished, SequentialBlock;
    OpenedDirectoryHolds(dir, entries, hash, overflowChecks, records, chain);
    InMemNothingIsUnreadable(dir, chain, es);
    assert M.Reachable(chain, s);
    InMemRuns.FinishedRunIsSequential(chain, s);
    InMemRuns.EmittedIsSequential(chain, s);
    SequentialAreRight(dir, chain, s.emitted);
  }
}
