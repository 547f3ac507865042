/**
 Connecting a block by looking every previous transaction up in the transaction index.

 Reading a block or a transaction at a disk position is a parameter: `None` is a failed read.
 */
module TxLookup {
  import opened Bits
  import opened Wrappers
  import opened Chain
  import opened IndexRecord
  import opened TxIndex

  datatype Files = Files(
    records: seq<Record>,
    readBlock: (I32, U32) -> Option<Block>,
    readTx: (I32, U32, U32) -> Option<Tx>)

  datatype LookupError =
    | TxDbUnavailable
    | BlockIndexRecordNotFound(height: nat)
    | BlockUnreadable
    | MissingOutputs(expected: nat, got: nat)
    | GenesisPanic

  /** If the first block can be read, it has the genesis transaction and an output of it. */
  predicate GenesisIsThere(files: Files) {
    files.records != [] ==>
      var b := files.readBlock(files.records[0].file, files.records[0].dataPos);
      b.Some? ==> b.value.txdata != [] && b.value.txdata[0].outputs != []
  }

  /** For an input that spends the genesis transaction, both are taken without looking; if they
      are not there, that is a panic. */
  predicate Panics(db: TxDb, files: Files, op: OutPoint) {
    !op.IsNull() && db.IsGenesisTx(op.txid) && !GenesisIsThere(files)
  }

  predicate SomePanics(db: TxDb, files: Files, ops: seq<OutPoint>) {
    exists i :: 0 <= i < |ops| && Panics(db, files, ops[i])
  }

  /** The output an input spends, unless looking for it panics. The genesis transaction is in no
      index: whatever the output number, its first output is the answer. */
  function AnswerTo(db: TxDb, files: Files, op: OutPoint): Option<TxOut> {
    if op.IsNull() then None
    else if db.IsGenesisTx(op.txid) then
      if files.records == [] || !GenesisIsThere(files) then None
      else
        var b :- files.readBlock(files.records[0].file, files.records[0].dataPos);
        Some(b.txdata[0].outputs[0])
    else
      match TxPositionOf(db, op.txid)
      case Err(_) => None
      case Ok(p) =>
        var tx :- files.readTx(p.file, p.dataPos, p.txOffset);
        if op.vout >= |tx.outputs| then None else Some(tx.outputs[op.vout])
  }

  method ConnectInput(db: TxDb, files: Files, op: OutPoint) returns (r: Result<Option<TxOut>, LookupError>)
    ensures r == if Panics(db, files, op) then Err(GenesisPanic) else Ok(AnswerTo(db, files, op))
  {
    if op.IsNull() {
      return Ok(None);
    }
    if db.IsGenesisTx(op.txid) {
      if files.records == [] {
        return Ok(None);
      }
      var b := files.readBlock(files.records[0].file, files.records[0].dataPos);
      if b.None? {
        return Ok(None);
      }
      if b.value.txdata == [] || b.value.txdata[0].outputs == [] {
        return Err(GenesisPanic);
      }
      return Ok(Some(b.value.txdata[0].outputs[0]));
    }
    var p := GetTxPosition(db, op.txid);
    if p.Err? {
      return Ok(None);
    }
    var tx := files.readTx(p.value.file, p.value.dataPos, p.value.txOffset);
    r := Ok(if tx.None? || op.vout >= |tx.value.outputs| then None else Some(tx.value.outputs[op.vout]));
  }

  function AnswersTo(db: TxDb, files: Files, ops: seq<OutPoint>): (r: seq<Option<TxOut>>)
    ensures |r| == |ops|
    ensures forall i :: 0 <= i < |ops| ==> r[i] == AnswerTo(db, files, ops[i])
  {
    Map(ops, op => AnswerTo(db, files, op))
  }

  function Expected(tx: Tx): nat {
    if tx.IsCoinbase() then 0 else |tx.inputs|
  }

  /** Connecting one transaction: as many outputs must be found as it has inputs. */
  function ConnectTxInputs(db: TxDb, files: Files, tx: Tx): Result<seq<TxOut>, LookupError>
  {
    var found := Found(AnswersTo(db, files, tx.inputs));
    if SomePanics(db, files, tx.inputs) then Err(GenesisPanic)
    else if |found| != Expected(tx) then Err(MissingOutputs(Expected(tx), |found|)) else Ok(found)
  }

  /** Every transaction connected on its own, up to the first that fails. */
  function ConnectEach(db: TxDb, files: Files, txs: seq<Tx>): Result<seq<ConnectedTx>, LookupError>
  {
    if txs == [] then Ok([])
    else
      var last := txs[|txs| - 1];
      match ConnectEach(db, files, txs[..|txs| - 1])
      case Err(e) => Err(e)
      case Ok(done) =>
        match ConnectTxInputs(db, files, last)
        case Err(e) => Err(e)
        case Ok(input) => Ok(done + [ConnectedTx(last.txid, input, last.outputs)])
  }

  /** Transaction k is the first that cannot be connected, and this is why. */
  ghost predicate FirstFailure(db: TxDb, files: Files, txs: seq<Tx>, k: nat, e: LookupError)
  {
    && k < |txs|
    && ConnectTxInputs(db, files, txs[k]) == Err(e)
    && forall i :: 0 <= i < k ==> ConnectTxInputs(db, files, txs[i]).Ok?
  }

  lemma {:induction false} ConnectEachFailsLikeFirst(db: TxDb, files: Files, txs: seq<Tx>, e: LookupError)
    ensures ConnectEach(db, files, txs) == Err(e) <==> exists k :: FirstFailure(db, files, txs, k, e)
    ensures ConnectEach(db, files, txs).Ok? <==> forall i :: 0 <= i < |txs| ==> ConnectTxInputs(db, files, txs[i]).Ok?
  {
    if txs == [] {
    } else {
      hide ConnectTxInputs;
      var before, last := txs[..|txs| - 1], |txs| - 1;
      ConnectEachFailsLikeFirst(db, files, before, e);
      assert forall i :: 0 <= i < last ==> txs[i] == before[i];
      forall k: nat | k < last ensures FirstFailure(db, files, txs, k, e) <==> FirstFailure(db, files, before, k, e) {
      }
      if ConnectEach(db, files, before).Ok? && ConnectTxInputs(db, files, txs[last]) == Err(e) {
        assert FirstFailure(db, files, txs, last, e);
      }
    }
  }

  lemma {:induction false} FailureStays(db: TxDb, files: Files, txs: seq<Tx>, n: nat)
    requires n <= |txs| && ConnectEach(db, files, txs[..n]).Err?
    ensures ConnectEach(db, files, txs) == ConnectEach(db, files, txs[..n])
  {
    if n == |txs| {
      assert txs[..n] == txs;
    } else {
      assert txs[..|txs| - 1][..n] == txs[..n];
      FailureStays(db, files, txs[..|txs| - 1], n);
    }
  }

  // ---------- all inputs of a block at once ----------

  function AllInputs(txs: seq<Tx>): seq<OutPoint> {
    if txs == [] then [] else txs[0].inputs + AllInputs(txs[1..])
  }

  method FlattenInputs(txs: seq<Tx>) returns (all: seq<OutPoint>)
    ensures all == AllInputs(txs)
  {
    all := [];
    var i := 0;
    while i < |txs|
      invariant 0 <= i <= |txs|
      invariant AllInputs(txs) == all + AllInputs(txs[i..])
    {
      assert txs[i..][1..] == txs[i + 1..];
      all := all + txs[i].inputs;
      i := i + 1;
    }
  }

  /** All answers, or the panic that any of the look-ups ended in. */
  method MapInputs(db: TxDb, files: Files, ops: seq<OutPoint>) returns (r: Result<seq<Option<TxOut>>, LookupError>)
    ensures r == if SomePanics(db, files, ops) then Err(GenesisPanic) else Ok(AnswersTo(db, files, ops))
  {
    var answers: seq<Option<TxOut>>, i := [], 0;
    while i < |ops|
      invariant 0 <= i <= |ops|
      invariant forall k :: 0 <= k < i ==> !Panics(db, files, ops[k])
      invariant answers == AnswersTo(db, files, ops[..i])
    {
      var answer := ConnectInput(db, files, ops[i]);
      if answer.Err? {
        assert Panics(db, files, ops[i]);
        return Err(GenesisPanic);
      }
      answers := answers + [answer.value];
      i := i + 1;
    }
    assert ops[..i] == ops;
    r := Ok(answers);
  }

  /** Takes the answers for `inputs` from the front of the queue, which still has one for every
      input, and leaves those for the inputs that follow. */
  method PopOutputs(db: TxDb, files: Files, inputs: seq<OutPoint>, queue: seq<Option<TxOut>>, ghost later: seq<OutPoint>)
    returns (outputs: seq<TxOut>, rest: seq<Option<TxOut>>)
    requires queue == AnswersTo(db, files, inputs + later)
    ensures outputs == Found(AnswersTo(db, files, inputs))
    ensures rest == AnswersTo(db, files, later)
  {
    outputs, rest := [], queue;
    var j := 0;
    assert inputs[0..] == inputs;
    while j < |inputs|
      invariant 0 <= j <= |inputs|
      invariant rest == AnswersTo(db, files, inputs[j..] + later)
      invariant outputs == Found(AnswersTo(db, files, inputs[..j]))
    {
      FoundStep(db, files, inputs, j);
      assert inputs[j..] + later == [inputs[j]] + (inputs[j + 1..] + later);
      var connected := rest[0];
      rest := rest[1..];
      if connected.Some? {
        outputs := outputs + [connected.value];
      }
      j := j + 1;
    }
    assert inputs[j..] + later == later && inputs[..j] == inputs;
  }

  lemma FoundStep(db: TxDb, files: Files, inputs: seq<OutPoint>, j: nat)
    requires j < |inputs|
    ensures var before, answer := Found(AnswersTo(db, files, inputs[..j])), AnswerTo(db, files, inputs[j]);
      Found(AnswersTo(db, files, inputs[..j + 1])) == if answer.Some? then before + [answer.value] else before
  {
    assert AnswersTo(db, files, inputs[..j + 1])[..j] == AnswersTo(db, files, inputs[..j]);
  }

  lemma {:induction false} PanicIsInSomeTx(db: TxDb, files: Files, txs: seq<Tx>)
    ensures SomePanics(db, files, AllInputs(txs)) <==> exists k :: 0 <= k < |txs| && SomePanics(db, files, txs[k].inputs)
  {
    if txs == [] {
    } else {
      PanicIsInSomeTx(db, files, txs[1..]);
      EitherPanics(db, files, txs[0].inputs, AllInputs(txs[1..]));
      hide SomePanics;
      assert forall k :: 0 <= k < |txs| - 1 ==> txs[1..][k] == txs[k + 1];
      assert forall k :: 1 <= k < |txs| ==> txs[k] == txs[1..][k - 1];
    }
  }

  lemma EitherPanics(db: TxDb, files: Files, a: seq<OutPoint>, b: seq<OutPoint>)
    ensures SomePanics(db, files, a + b) <==> SomePanics(db, files, a) || SomePanics(db, files, b)
  {
    forall i | 0 <= i < |a| && Panics(db, files, a[i]) ensures Panics(db, files, (a + b)[i]) {
    }
    forall i | 0 <= i < |b| && Panics(db, files, b[i]) ensures Panics(db, files, (a + b)[|a| + i]) {
    }
  }

  /** What the batched version gives: a panic of any look-up comes before everything else. */
  function ConnectBatched(db: TxDb, files: Files, txs: seq<Tx>): Result<seq<ConnectedTx>, LookupError> {
    if SomePanics(db, files, AllInputs(txs)) then Err(GenesisPanic) else ConnectEach(db, files, txs)
  }

  /** Connecting the transactions one by one gives the same, except where a transaction with
      missing outputs comes before the first one that panics. */
  lemma BatchedIsEachIff(db: TxDb, files: Files, txs: seq<Tx>)
    ensures ConnectBatched(db, files, txs) == ConnectEach(db, files, txs) <==>
      forall k: nat, e :: FirstFailure(db, files, txs, k, e) && e != GenesisPanic ==>
        forall j :: k < j < |txs| ==> !SomePanics(db, files, txs[j].inputs)
  {
    PanicIsInSomeTx(db, files, txs);
    var each := ConnectEach(db, files, txs);
    hide ConnectEach, AllInputs, SomePanics;
    if each.Err? {
      ConnectEachFailsLikeFirst(db, files, txs, each.error);
      var k :| FirstFailure(db, files, txs, k, each.error);
    } else {
      ConnectEachFailsLikeFirst(db, files, txs, GenesisPanic);
      forall k | 0 <= k < |txs| ensures ConnectTxInputs(db, files, txs[k]).Ok? && !SomePanics(db, files, txs[k].inputs) {
      }
    }
  }

  /** The batched version connects what the transactions give one by one, or fails like the
      first of them that fails. The queue never runs dry: it is as long as the inputs left. */
  method ConnectBlockInputs(db: TxDb, files: Files, txs: seq<Tx>) returns (r: Result<seq<ConnectedTx>, LookupError>)
    ensures r == ConnectBatched(db, files, txs)
  {
    var all := FlattenInputs(txs);
    var answers := MapInputs(db, files, all);
    if answers.Err? {
      return Err(GenesisPanic);
    }
    PanicIsInSomeTx(db, files, txs);
    hide SomePanics;
    var queue := answers.value;
    var connected: seq<ConnectedTx> := [];
    var i := 0;
    while i < |txs|
      invariant 0 <= i <= |txs|
      invariant queue == AnswersTo(db, files, AllInputs(txs[i..]))
      invariant ConnectEach(db, files, txs[..i]) == Ok(connected)
    {
      assert txs[i..][1..] == txs[i + 1..] && txs[..i + 1][..i] == txs[..i];
      var expected := if txs[i].IsCoinbase() then 0 else |txs[i].inputs|;
      var outputs, rest := PopOutputs(db, files, txs[i].inputs, queue, AllInputs(txs[i + 1..]));
      if |outputs| != expected {
        FailureStays(db, files, txs, i + 1);
        return Err(MissingOutputs(expected, |outputs|));
      }
      connected := connected + [ConnectedTx(txs[i].txid, outputs, txs[i].outputs)];
      queue := rest;
      i := i + 1;
    }
    assert txs[..i] == txs;
    r := Ok(connected);
  }

  // ---------- the block at a height ----------

  function ConnectedBlockAt(txDb: Option<TxDb>, files: Files, height: nat): Result<ConnectedBlock, LookupError>
  {
    if txDb.None? then Err(TxDbUnavailable)
    else if height >= |files.records| then Err(BlockIndexRecordNotFound(height))
    else
      match files.readBlock(files.records[height].file, files.records[height].dataPos)
      case None => Err(BlockUnreadable)
      case Some(b) =>
        match ConnectBatched(txDb.value, files, b.txdata)
        case Err(e) => Err(e)
        case Ok(txs) => Ok(ConnectedBlock(b.header, txs))
  }

  method GetConnectedBlock(txDb: Option<TxDb>, files: Files, height: nat) returns (r: Result<ConnectedBlock, LookupError>)
    ensures r == ConnectedBlockAt(txDb, files, height)
  {
    if txDb.None? {
      return Err(TxDbUnavailable);
    }
    if height >= |files.records| {
      return Err(BlockIndexRecordNotFound(height));
    }
    var b := files.readBlock(files.records[height].file, files.records[height].dataPos);
    if b.None? {
      return Err(BlockUnreadable);
    }
    var txs := ConnectBlockInputs(txDb.value, files, b.value.txdata);
    r := if txs.Ok? then Ok(ConnectedBlock(b.value.header, txs.value)) else Err(txs.error);
  }
}
