/**
 The unspent-output pipeline against the slow look-up through the transaction index.

 The two agree block by block, but not everywhere: the look-up refuses a transaction with a
 null input that is not a coinbase, and it answers every output number of the genesis
 transaction with its first output. `LookupSafe` is exactly the rest.
 */
module CacheAgreement {
  import opened Bits
  import opened Wrappers
  import opened Chain
  import opened FlatStore
  import opened IndexRecord
  import opened TxIndex
  import opened TxLookup
  import P = Pipeline
  import M = InMemPipeline
  import InMemRuns

  // ---------- a faithful index ----------

  /** The record of height h leads to block h. */
  predicate BlockIsFiled(files: Files, chain: seq<Block>, h: nat)
    requires h < |chain|
  {
    && h < |files.records|
    && files.readBlock(files.records[h].file, files.records[h].dataPos) == Some(chain[h])
  }

  /** The index has an entry that leads to the transaction. */
  predicate TxIsFiled(db: TxDb, files: Files, tx: Tx) {
    match TxPositionOf(db, tx.txid)
    case Ok(p) => files.readTx(p.file, p.dataPos, p.txOffset) == Some(tx)
    case Err(_) => false
  }

  /** Every block can be read, every transaction but the genesis one is indexed, and that one
      is the first of the chain. */
  ghost predicate Faithful(db: TxDb, files: Files, chain: seq<Block>) {
    && |files.records| == |chain|
    && (forall h :: 0 <= h < |chain| ==> BlockIsFiled(files, chain, h))
    && (chain != [] ==>
          chain[0].txdata != [] && chain[0].txdata[0].outputs != [] && db.IsGenesisTx(chain[0].txdata[0].txid))
    && (forall h, i :: 0 <= h < |chain| && 0 <= i < |chain[h].txdata| && !db.IsGenesisTx(chain[h].txdata[i].txid) ==>
          TxIsFiled(db, files, chain[h].txdata[i]))
  }

  lemma FaithfulHasGenesis(db: TxDb, files: Files, chain: seq<Block>)
    requires Faithful(db, files, chain)
    ensures GenesisIsThere(files)
  {
    if files.records != [] {
      assert BlockIsFiled(files, chain, 0);
    }
  }

  // ---------- where the look-up can be trusted ----------

  predicate HasNullInput(tx: Tx) {
    exists i :: 0 <= i < |tx.inputs| && tx.inputs[i].IsNull()
  }

  /** Output n of the genesis transaction is like its first. */
  predicate LikeFirstOutput(genesis: Tx, n: U32)
    requires genesis.outputs != []
  {
    n < |genesis.outputs| ==> genesis.outputs[n] == genesis.outputs[0]
  }

  predicate TxIsSafe(genesis: Tx, tx: Tx)
    requires genesis.outputs != []
  {
    tx.IsCoinbase() ||
    (!HasNullInput(tx) && forall i :: 0 <= i < |tx.inputs| && tx.inputs[i].txid == genesis.txid ==>
      LikeFirstOutput(genesis, tx.inputs[i].vout))
  }

  predicate LookupSafe(chain: seq<Block>, h: nat)
    requires h < |chain|
  {
    chain[0].txdata != [] && chain[0].txdata[0].outputs != [] ==>
      forall i :: 0 <= i < |chain[h].txdata| ==> TxIsSafe(chain[0].txdata[0], chain[h].txdata[i])
  }

  // ---------- one input ----------

  /** Where an outpoint of the chain comes from. */
  lemma OriginOf(chain: seq<Block>, k: nat, op: OutPoint) returns (j: nat)
    requires UniqueTxids(chain) && k < |chain| && op in Created(chain, k)
    ensures j < |chain[k].txdata| && chain[k].txdata[j].txid == op.txid
    ensures op.vout < |chain[k].txdata[j].outputs| && chain[k].txdata[j].outputs[op.vout] == Origin(chain)(op)
  {
    OutputsKeys(chain[k].txdata, op);
    j :| 0 <= j < |chain[k].txdata| && chain[k].txdata[j].txid == op.txid && op.vout < |chain[k].txdata[j].outputs|;
    OutputsValue(chain[k].txdata, j, op);
    CreatedValue(chain, k, op);
  }

  /** Every input of a valid chain is found, and rightly unless it spends a genesis output that
      differs from the first. */
  lemma InputAgreesIff(db: TxDb, files: Files, chain: seq<Block>, k: nat, op: OutPoint)
    requires UniqueTxids(chain) && Faithful(db, files, chain) && GenesisIsThere(files)
    requires k < |chain| && op in Created(chain, k) && !op.IsNull()
    ensures AnswerTo(db, files, op).Some?
    ensures AnswerTo(db, files, op) == Some(Origin(chain)(op))
       <==> (op.txid == chain[0].txdata[0].txid ==> LikeFirstOutput(chain[0].txdata[0], op.vout))
  {
    var j := OriginOf(chain, k, op);
    var tx := chain[k].txdata[j];
    hide UniqueTxids, Origin, Created;
    assert BlockIsFiled(files, chain, 0);
    if db.IsGenesisTx(op.txid) {
      SameTxid(chain, k, j);
      assert tx == chain[0].txdata[0];
    } else {
      assert TxIsFiled(db, files, tx);
    }
  }

  lemma SameTxid(chain: seq<Block>, k: nat, j: nat)
    requires UniqueTxids(chain) && k < |chain| && j < |chain[k].txdata|
    requires |chain[0].txdata| > 0 && chain[k].txdata[j].txid == chain[0].txdata[0].txid
    ensures k == 0 && j == 0
  {
  }

  // ---------- one transaction ----------

  lemma {:induction false} NonNullIsAllIff(inputs: seq<OutPoint>)
    ensures |NonNull(inputs)| <= |inputs|
    ensures |NonNull(inputs)| == |inputs| <==> forall i :: 0 <= i < |inputs| ==> !inputs[i].IsNull()
    ensures |NonNull(inputs)| == |inputs| ==> NonNull(inputs) == inputs
  {
    if inputs == [] {
    } else {
      NonNullIsAllIff(inputs[..|inputs| - 1]);
      assert inputs == inputs[..|inputs| - 1] + [inputs[|inputs| - 1]];
    }
  }

  lemma NullIsNotFound(db: TxDb, files: Files, op: OutPoint)
    ensures op.IsNull() ==> AnswerTo(db, files, op).None?
  {
  }

  lemma AnswersStep(db: TxDb, files: Files, ops: seq<OutPoint>, op: OutPoint)
    ensures AnswersTo(db, files, ops + [op]) == AnswersTo(db, files, ops) + [AnswerTo(db, files, op)]
  {
    hide AnswerTo;
  }

  lemma SomesStep(s: seq<TxOut>, o: TxOut)
    ensures Somes(s + [o]) == Somes(s) + [Some(o)]
  {
  }

  lemma {:induction false} FoundAnswersNonNull(db: TxDb, files: Files, inputs: seq<OutPoint>)
    requires forall i :: 0 <= i < |inputs| && !inputs[i].IsNull() ==> AnswerTo(db, files, inputs[i]).Some?
    ensures Somes(Found(AnswersTo(db, files, inputs))) == AnswersTo(db, files, NonNull(inputs))
  {
    hide AnswerTo, AnswersTo, OutPoint.IsNull, Somes;
    if inputs == [] {
      assert AnswersTo(db, files, []) == [];
      assert Somes<TxOut>([]) == [];
    } else {
      var before, last := inputs[..|inputs| - 1], inputs[|inputs| - 1];
      FoundAnswersNonNull(db, files, before);
      assert inputs[..|inputs|] == inputs;
      FoundStep(db, files, inputs, |inputs| - 1);
      NullIsNotFound(db, files, last);
      if !last.IsNull() {
        AnswersStep(db, files, NonNull(before), last);
        SomesStep(Found(AnswersTo(db, files, before)), AnswerTo(db, files, last).value);
      }
      hide Found;
    }
  }

  /** If all non-null inputs are found, the found outputs are theirs, in order. */
  lemma FoundIsNonNull(db: TxDb, files: Files, inputs: seq<OutPoint>)
    requires forall i :: 0 <= i < |inputs| && !inputs[i].IsNull() ==> AnswerTo(db, files, inputs[i]).Some?
    ensures |Found(AnswersTo(db, files, inputs))| == |NonNull(inputs)|
    ensures forall i :: 0 <= i < |NonNull(inputs)| ==>
      Some(Found(AnswersTo(db, files, inputs))[i]) == AnswerTo(db, files, NonNull(inputs)[i])
  {
    hide AnswerTo, AnswersTo, OutPoint.IsNull, Somes, NonNull, Found;
    FoundAnswersNonNull(db, files, inputs);
    var found := Found(AnswersTo(db, files, inputs));
    forall i | 0 <= i < |NonNull(inputs)| ensures |found| == |NonNull(inputs)| && Some(found[i]) == AnswerTo(db, files, NonNull(inputs)[i]) {
      assert Somes(found)[i] == AnswersTo(db, files, NonNull(inputs))[i];
    }
    assert |Somes(found)| == |AnswersTo(db, files, NonNull(inputs))|;
  }

  /** The transaction is connected on its own, each input to its origin. */
  predicate ConnectsTo(db: TxDb, files: Files, tx: Tx, origin: OutPoint -> TxOut) {
    ConnectTxInputs(db, files, tx) == Ok(Map(NonNull(tx.inputs), origin))
  }

  /** Whether each input of the transaction is found with the right output. */
  ghost predicate InputsAgree(db: TxDb, files: Files, chain: seq<Block>, tx: Tx) {
    forall i :: 0 <= i < |NonNull(tx.inputs)| ==>
      AnswerTo(db, files, NonNull(tx.inputs)[i]) == Some(Origin(chain)(NonNull(tx.inputs)[i]))
  }

  lemma TxConnectsIff(db: TxDb, files: Files, chain: seq<Block>, tx: Tx)
    requires GenesisIsThere(files)
    requires forall i :: 0 <= i < |tx.inputs| && !tx.inputs[i].IsNull() ==> AnswerTo(db, files, tx.inputs[i]).Some?
    ensures ConnectsTo(db, files, tx, Origin(chain))
       <==> |NonNull(tx.inputs)| == Expected(tx) && InputsAgree(db, files, chain, tx)
  {
    FoundIsNonNull(db, files, tx.inputs);
    hide AnswerTo, AnswersTo, Found, Origin, Tx.IsCoinbase, NonNull;
    var found := Found(AnswersTo(db, files, tx.inputs));
    if |found| == Expected(tx) && found == Map(NonNull(tx.inputs), Origin(chain)) {
      forall i | 0 <= i < |NonNull(tx.inputs)|
        ensures AnswerTo(db, files, NonNull(tx.inputs)[i]) == Some(Origin(chain)(NonNull(tx.inputs)[i]))
      {
        assert found[i] == Map(NonNull(tx.inputs), Origin(chain))[i];
      }
    }
  }

  lemma ExpectedIff(tx: Tx)
    ensures |NonNull(tx.inputs)| == Expected(tx) <==> tx.IsCoinbase() || !HasNullInput(tx)
    ensures tx.IsCoinbase() ==> NonNull(tx.inputs) == []
    ensures !HasNullInput(tx) ==> NonNull(tx.inputs) == tx.inputs
  {
    NonNullIsAllIff(tx.inputs);
    if tx.IsCoinbase() {
      assert tx.inputs[..0] == [];
    }
  }

  lemma SpentInputIsCreated(chain: seq<Block>, h: nat, i: nat, j: nat) returns (k: nat)
    requires NoDanglingInput(chain) && h < |chain| && i < |chain[h].txdata|
    requires j < |chain[h].txdata[i].inputs| && !chain[h].txdata[i].inputs[j].IsNull()
    ensures k < |chain| && chain[h].txdata[i].inputs[j] in Created(chain, k)
  {
    var op := chain[h].txdata[i].inputs[j];
    NonNullMembers(chain[h].txdata[i].inputs, op);
    InputIsSpent(chain[h].txdata, i, op);
    var n :| 0 <= n < |Spent(chain, h)| && Spent(chain, h)[n] == op;
    assert CreatedUpTo(chain, h, op);
    k :| 0 <= k <= h && op in Created(chain, k);
  }

  lemma {:induction false} InputIsSpent(txs: seq<Tx>, i: nat, op: OutPoint)
    requires i < |txs| && op in NonNull(txs[i].inputs)
    ensures op in Spends(txs)
  {
    if i == |txs| - 1 {
    } else {
      InputIsSpent(txs[..|txs| - 1], i, op);
    }
  }

  lemma TxAgreesIff(db: TxDb, files: Files, chain: seq<Block>, h: nat, i: nat)
    requires ValidChain(chain) && Faithful(db, files, chain) && GenesisIsThere(files)
    requires h < |chain| && i < |chain[h].txdata|
    ensures ConnectsTo(db, files, chain[h].txdata[i], Origin(chain))
       <==> TxIsSafe(chain[0].txdata[0], chain[h].txdata[i])
  {
    var tx, genesis := chain[h].txdata[i], chain[0].txdata[0];
    hide Origin, Created, UniqueTxids, NoDoubleSpend, AnswerTo, ConnectsTo, LikeFirstOutput, OutPoint.IsNull;
    forall j | 0 <= j < |tx.inputs| && !tx.inputs[j].IsNull()
      ensures AnswerTo(db, files, tx.inputs[j]).Some?
      ensures AnswerTo(db, files, tx.inputs[j]) == Some(Origin(chain)(tx.inputs[j]))
         <==> (tx.inputs[j].txid == genesis.txid ==> LikeFirstOutput(genesis, tx.inputs[j].vout))
    {
      var k := SpentInputIsCreated(chain, h, i, j);
      InputAgreesIff(db, files, chain, k, tx.inputs[j]);
    }
    TxConnectsIff(db, files, chain, tx);
    ExpectedIff(tx);
    hide Faithful, ValidChain, NoDanglingInput, Expected;
  }

  // ---------- one block ----------

  lemma {:induction false} EachConnectsIff(db: TxDb, files: Files, txs: seq<Tx>, origin: OutPoint -> TxOut)
    ensures ConnectEach(db, files, txs) == Ok(ConnectAll(txs, origin))
       <==> forall i :: 0 <= i < |txs| ==> ConnectsTo(db, files, txs[i], origin)
  {
    if txs == [] {
    } else {
      var before, last := txs[..|txs| - 1], txs[|txs| - 1];
      EachConnectsIff(db, files, before, origin);
      LastConnectsIff(db, files, txs, origin);
      hide ConnectsTo, ConnectEach, ConnectAll;
      assert forall i :: 0 <= i < |before| ==> txs[i] == before[i];
    }
  }

  lemma LastConnectsIff(db: TxDb, files: Files, txs: seq<Tx>, origin: OutPoint -> TxOut)
    requires txs != []
    ensures ConnectEach(db, files, txs) == Ok(ConnectAll(txs, origin)) <==>
      (ConnectEach(db, files, txs[..|txs| - 1]) == Ok(ConnectAll(txs[..|txs| - 1], origin))
       && ConnectsTo(db, files, txs[|txs| - 1], origin))
  {
    hide ConnectTxInputs, NonNull, GenesisIsThere;
    var before, last := txs[..|txs| - 1], txs[|txs| - 1];
    if ConnectEach(db, files, txs) == Ok(ConnectAll(txs, origin)) {
      var done, input := ConnectEach(db, files, before).value, ConnectTxInputs(db, files, last).value;
      SnocInjective(done, ConnectedTx(last.txid, input, last.outputs), ConnectAll(before, origin), Connect(last, origin));
    }
  }

  lemma SnocInjective<T>(s: seq<T>, x: T, t: seq<T>, y: T)
    requires s + [x] == t + [y]
    ensures s == t && x == y
  {
    assert |s| == |t|;
    assert (s + [x])[..|s|] == s && (t + [y])[..|t|] == t;
    assert (s + [x])[|s|] == x && (t + [y])[|t|] == y;
  }

  /** The look-up gives the block that the pipeline gives, if and only if it is safe there. */
  lemma LookupAgreesIff(db: TxDb, files: Files, chain: seq<Block>, h: nat)
    requires ValidChain(chain) && Faithful(db, files, chain) && h < |chain|
    ensures SequentialBlock(chain, h).Some?
    ensures ConnectedBlockAt(Some(db), files, h) == Ok(SequentialBlock(chain, h).value) <==> LookupSafe(chain, h)
  {
    FaithfulHasGenesis(db, files, chain);
    assert BlockIsFiled(files, chain, h);
    assert BlockIsFiled(files, chain, 0);
    hide ValidChain, Faithful, ConnectEach, ConnectAll, ConnectsTo, TxIsSafe, SequentialBlock, Origin;
    SequentialBlockConnects(chain, h);
    EachConnectsIff(db, files, chain[h].txdata, Origin(chain));
    forall i | 0 <= i < |chain[h].txdata|
      ensures ConnectsTo(db, files, chain[h].txdata[i], Origin(chain))
         <==> TxIsSafe(chain[0].txdata[0], chain[h].txdata[i])
    {
      TxAgreesIff(db, files, chain, h, i);
    }
    NothingPanics(db, files, AllInputs(chain[h].txdata));
    hide SomePanics, GenesisIsThere, AllInputs;
  }

  lemma NothingPanics(db: TxDb, files: Files, ops: seq<OutPoint>)
    requires GenesisIsThere(files)
    ensures !SomePanics(db, files, ops)
  {
  }

  /** The genesis transaction of the network has one output. With one, only null inputs matter. */
  lemma SafeWithOneGenesisOutputIff(chain: seq<Block>, h: nat)
    requires h < |chain| && chain[0].txdata != [] && |chain[0].txdata[0].outputs| == 1
    ensures LookupSafe(chain, h) <==> forall i :: 0 <= i < |chain[h].txdata| ==>
      chain[h].txdata[i].IsCoinbase() || !HasNullInput(chain[h].txdata[i])
  {
    hide HasNullInput, Tx.IsCoinbase;
  }

  // ---------- where they differ ----------

  function NullOutPoint(): OutPoint {
    OutPoint(seq(32, _ => 0), U32_MAX)
  }

  /** A chain of one block: a coinbase, which is the genesis transaction, and one more. */
  function Pair(header: Header, genesis: Tx, tx: Tx): seq<Block> {
    [Block(header, [genesis, tx])]
  }

  function Coinbase(txid: Txid, outputs: TxOuts): Tx {
    Tx(txid, [NullOutPoint()], outputs)
  }

  lemma NullsAreNotSpends(inputs: seq<OutPoint>)
    requires forall i :: 0 <= i < |inputs| ==> inputs[i] == NullOutPoint()
    ensures NonNull(inputs) == []
  {
    if NonNull(inputs) != [] {
      NonNullMembers(inputs, NonNull(inputs)[0]);
    }
  }

  lemma SpendsOfPair(header: Header, g: Txid, outputs: TxOuts, tx: Tx)
    ensures Spent(Pair(header, Coinbase(g, outputs), tx), 0) == NonNull(tx.inputs)
  {
    var genesis := Coinbase(g, outputs);
    var txs := [genesis, tx];
    NullsAreNotSpends(genesis.inputs);
    assert txs[..1] == [genesis] && txs[..1][..0] == [];
    assert Spends(txs[..1]) == [];
  }

  lemma SingleBlockIsValid(chain: seq<Block>)
    requires |chain| == 1 && DistinctTxids(chain[0].txdata) && Distinct(Spent(chain, 0))
    requires forall i :: 0 <= i < |Spent(chain, 0)| ==> Spent(chain, 0)[i] in Created(chain, 0)
    ensures ValidChain(chain)
  {
    hide Spent, Created;
    forall i | 0 <= i < |Spent(chain, 0)| ensures CreatedUpTo(chain, 0, Spent(chain, 0)[i]) {
      assert Spent(chain, 0)[i] in Created(chain, 0);
    }
  }

  /** Files that hold one block, and one more transaction. */
  function OneBlock(record: Record, b: Block, tx: Tx): Files {
    Files([record], (_, _) => Some(b), (_, _, _) => Some(tx))
  }

  lemma PairIsFaithful(db: TxDb, files: Files, header: Header, genesis: Tx, tx: Tx)
    requires |files.records| == 1 && BlockIsFiled(files, Pair(header, genesis, tx), 0)
    requires genesis.outputs != [] && db.IsGenesisTx(genesis.txid) && TxIsFiled(db, files, tx)
    ensures Faithful(db, files, Pair(header, genesis, tx))
  {
    hide TxIsFiled, BlockIsFiled;
    var chain := Pair(header, genesis, tx);
    forall h, i | 0 <= h < |chain| && 0 <= i < |chain[h].txdata| && !db.IsGenesisTx(chain[h].txdata[i].txid)
      ensures TxIsFiled(db, files, chain[h].txdata[i])
    {
      assert h == 0 && i == 1;
    }
  }

  /** Any index entry and any reader that lead to the second transaction will do. */
  lemma PairCanBeFiled(header: Header, g: Txid, outputs: TxOuts, tx: Tx, record: Record, p: TxPosition)
    requires g != tx.txid && p.txid == tx.txid && outputs != []
    ensures var chain := Pair(header, Coinbase(g, outputs), tx);
      Faithful(TxDb(map[TxKey(tx.txid) := EncodePosition(p)], map[], g), OneBlock(record, chain[0], tx), chain)
  {
    var chain := Pair(header, Coinbase(g, outputs), tx);
    var db := TxDb(map[TxKey(tx.txid) := EncodePosition(p)], map[], g);
    IndexedIsFound(db, p);
    hide Faithful, EncodePosition, TxKey, TxPositionOf;
    PairIsFaithful(db, OneBlock(record, chain[0], tx), header, Coinbase(g, outputs), tx);
  }

  /** After a coinbase with one output, a transaction with two null inputs. */
  function TwoNullInputs(header: Header, g: Txid, u: Txid, a: TxOut, b: TxOut): seq<Block> {
    Pair(header, Coinbase(g, [a]), Tx(u, [NullOutPoint(), NullOutPoint()], [b]))
  }

  lemma TwoNullInputsIsValid(header: Header, g: Txid, u: Txid, a: TxOut, b: TxOut)
    requires g != u
    ensures ValidChain(TwoNullInputs(header, g, u, a, b))
  {
    NullsAreNotSpends([NullOutPoint(), NullOutPoint()]);
    SpendsOfPair(header, g, [a], Tx(u, [NullOutPoint(), NullOutPoint()], [b]));
    hide Spent, NonNull, ValidChain;
    SingleBlockIsValid(TwoNullInputs(header, g, u, a, b));
  }

  /** The pipeline connects the block; the look-up, whatever the index, misses two outputs. */
  lemma NullInputIsRefused(db: TxDb, files: Files, header: Header, g: Txid, u: Txid, a: TxOut, b: TxOut)
    requires g != u && Faithful(db, files, TwoNullInputs(header, g, u, a, b))
    ensures ValidChain(TwoNullInputs(header, g, u, a, b))
    ensures SequentialBlock(TwoNullInputs(header, g, u, a, b), 0).Some?
    ensures ConnectedBlockAt(Some(db), files, 0) == Err(MissingOutputs(2, 0))
  {
    var chain := TwoNullInputs(header, g, u, a, b);
    var genesis, tx := chain[0].txdata[0], chain[0].txdata[1];
    TwoNullInputsIsValid(header, g, u, a, b);
    LookupAgreesIff(db, files, chain, 0);
    assert BlockIsFiled(files, chain, 0);
    NullTxIsRefused(db, files, tx);
    CoinbaseConnects(db, files, genesis);
    hide ValidChain, Faithful, SequentialBlock, GenesisIsThere, ConnectTxInputs, NullOutPoint;
    SecondFails(db, files, [genesis, tx], MissingOutputs(2, 0));
  }

  lemma NullTxIsRefused(db: TxDb, files: Files, tx: Tx)
    requires GenesisIsThere(files) && tx.inputs == [NullOutPoint(), NullOutPoint()]
    ensures ConnectTxInputs(db, files, tx) == Err(MissingOutputs(2, 0))
  {
    NullsAreNotSpends(tx.inputs);
    hide GenesisIsThere, AnswerTo, NonNull;
    assert tx.inputs[0].IsNull() && tx.inputs[1].IsNull();
    FoundIsNonNull(db, files, tx.inputs);
  }

  lemma CoinbaseConnects(db: TxDb, files: Files, tx: Tx)
    requires GenesisIsThere(files) && tx.inputs == [NullOutPoint()]
    ensures ConnectTxInputs(db, files, tx).Ok?
  {
    NullsAreNotSpends(tx.inputs);
    hide GenesisIsThere, AnswerTo, NonNull;
    assert tx.inputs[0].IsNull();
    FoundIsNonNull(db, files, tx.inputs);
  }

  lemma SecondFails(db: TxDb, files: Files, txs: seq<Tx>, e: LookupError)
    requires |txs| == 2
    requires ConnectTxInputs(db, files, txs[0]).Ok? && ConnectTxInputs(db, files, txs[1]) == Err(e)
    ensures ConnectEach(db, files, txs) == Err(e)
  {
    ConnectEachFailsLikeFirst(db, files, txs, e);
    assert FirstFailure(db, files, txs, 1, e);
  }

  /** After a genesis transaction with two outputs, a transaction that spends the second. */
  function SecondOutputSpent(header: Header, g: Txid, u: Txid, a: TxOut, b: TxOut): seq<Block> {
    Pair(header, Coinbase(g, [a, b]), Tx(u, [OutPoint(g, 1)], []))
  }

  lemma SecondOutputSpentIsValid(header: Header, g: Txid, u: Txid, a: TxOut, b: TxOut)
    requires g != u
    ensures ValidChain(SecondOutputSpent(header, g, u, a, b))
  {
    var chain, op := SecondOutputSpent(header, g, u, a, b), OutPoint(g, 1);
    SpendsOfPair(header, g, [a, b], chain[0].txdata[1]);
    SecondOutputIsCreated(header, g, u, a, b);
    assert Spent(chain, 0) == [op];
    hide Created, Spent, ValidChain;
    SingleBlockIsValid(chain);
  }

  lemma SecondOutputIsCreated(header: Header, g: Txid, u: Txid, a: TxOut, b: TxOut)
    ensures OutPoint(g, 1) in Created(SecondOutputSpent(header, g, u, a, b), 0)
    ensures NonNull([OutPoint(g, 1)]) == [OutPoint(g, 1)]
  {
    var txs, op := SecondOutputSpent(header, g, u, a, b)[0].txdata, OutPoint(g, 1);
    OutputsKeys(txs, op);
    assert txs[0].txid == g;
    hide Outputs;
    assert [op][..0] == [];
  }

  /** If the genesis transaction had two different outputs, the look-up would attach the first
      where the second is spent, and so give another block than the pipeline. */
  lemma GenesisOutputIsMistaken(db: TxDb, files: Files, header: Header, g: Txid, u: Txid, a: TxOut, b: TxOut)
    requires g != u && a != b && Faithful(db, files, SecondOutputSpent(header, g, u, a, b))
    ensures ValidChain(SecondOutputSpent(header, g, u, a, b))
    ensures AnswerTo(db, files, OutPoint(g, 1)) == Some(a)
    ensures SequentialBlock(SecondOutputSpent(header, g, u, a, b), 0).Some?
    ensures ConnectedBlockAt(Some(db), files, 0) != Ok(SequentialBlock(SecondOutputSpent(header, g, u, a, b), 0).value)
  {
    var chain := SecondOutputSpent(header, g, u, a, b);
    SecondOutputSpentIsValid(header, g, u, a, b);
    LookupAgreesIff(db, files, chain, 0);
    assert BlockIsFiled(files, chain, 0);
    hide ValidChain, SequentialBlock, ConnectedBlockAt;
    assert chain[0].txdata[1].inputs[0].txid == g;
    assert !TxIsSafe(chain[0].txdata[0], chain[0].txdata[1]);
  }

  // ---------- whole runs ----------

  /** In every reachable state of the pipeline, the blocks emitted so far are those of the
      look-up exactly as far as the look-up is safe. */
  lemma PipelineAgreesIff(db: TxDb, files: Files, chain: seq<Block>, s: P.State, h: nat)
    requires ValidChain(chain) && Faithful(db, files, chain) && P.Reachable(chain, s) && h < |s.emitted|
    ensures h < |chain|
    ensures ConnectedBlockAt(Some(db), files, h) == Ok(s.emitted[h]) <==> LookupSafe(chain, h)
  {
    hide ValidChain, Faithful, P.Reachable, ConnectedBlockAt, LookupSafe, SequentialBlock;
    P.EmittedIsSequential(chain, s);
    LookupAgreesIff(db, files, chain, h);
  }

  lemma InMemPipelineAgreesIff(db: TxDb, files: Files, chain: seq<Block>, s: M.State, h: nat)
    requires ValidChain(chain) && Faithful(db, files, chain) && M.Reachable(chain, s) && h < |s.emitted|
    ensures h < |chain|
    ensures ConnectedBlockAt(Some(db), files, h) == Ok(s.emitted[h]) <==> LookupSafe(chain, h)
  {
    hide ValidChain, Faithful, M.Reachable, ConnectedBlockAt, LookupSafe, SequentialBlock;
    InMemRuns.EmittedIsSequential(chain, s);
    LookupAgreesIff(db, files, chain, h);
  }
}
