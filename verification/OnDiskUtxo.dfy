/** The on-disk unspent store: byte keys and byte values, read and deleted in batch. */
module OnDiskUtxo {
  import opened Bits
  import opened Wrappers
  import opened Chain
  import opened FlatStore

  /** How outputs are written to the store and read back. */
  datatype TxOutCodec = TxOutCodec(encode: TxOut -> seq<byte>, decode: seq<byte> -> Option<TxOut>)

  ghost predicate DecodesWhatItEncodes(c: TxOutCodec) {
    forall o :: c.decode(c.encode(o)) == Some(o)
  }

  /** Txid, then the output number in four bytes (in the little-endian order of the machine). */
  function TxOutKey(op: OutPoint): seq<byte> {
    op.txid + LittleEndian(op.vout, 4)
  }

  /** Different outpoints never share a key. */
  lemma TxOutKeyIsInjective(a: OutPoint, b: OutPoint)
    ensures TxOutKey(a) == TxOutKey(b) <==> a == b
    ensures |TxOutKey(a)| == 36
  {
    if TxOutKey(a) == TxOutKey(b) {
      assert a.txid == TxOutKey(a)[..32] == TxOutKey(b)[..32] == b.txid;
      assert LittleEndian(a.vout, 4) == TxOutKey(a)[32..] == TxOutKey(b)[32..] == LittleEndian(b.vout, 4);
      Pow256Of4();
      LittleEndianRoundTrip(a.vout, 4);
      LittleEndianRoundTrip(b.vout, 4);
    }
  }

  // ---------- the byte map stands for the flat store ----------

  type Db = map<seq<byte>, seq<byte>>

  ghost predicate KeyHolds(c: TxOutCodec, db: Db, store: Store, op: OutPoint) {
    && (TxOutKey(op) in db <==> op in store)
    && (op in store ==> TxOutKey(op) in db && db[TxOutKey(op)] == c.encode(store[op]))
  }

  ghost predicate Represents(c: TxOutCodec, db: Db, store: Store) {
    forall op :: KeyHolds(c, db, store, op)
  }

  lemma NothingRepresented(c: TxOutCodec)
    ensures Represents(c, map[], map[])
  {
    var db: Db, store: Store := map[], map[];
    forall x ensures KeyHolds(c, db, store, x) {
    }
  }

  lemma PutRepresents(c: TxOutCodec, db: Db, store: Store, op: OutPoint, o: TxOut)
    requires Represents(c, db, store)
    ensures Represents(c, db[TxOutKey(op) := c.encode(o)], store[op := o])
  {
    hide TxOutKey;
    var db', store' := db[TxOutKey(op) := c.encode(o)], store[op := o];
    forall x ensures KeyHolds(c, db', store', x) {
      assert KeyHolds(c, db, store, x);
      TxOutKeyIsInjective(op, x);
    }
  }

  lemma WriteRepresents(c: TxOutCodec, db: Db, store: Store, batch: Db, more: Store)
    requires Represents(c, db, store) && Represents(c, batch, more)
    ensures Represents(c, db + batch, store + more)
  {
    hide TxOutKey;
    forall x ensures KeyHolds(c, db + batch, store + more, x) {
      assert KeyHolds(c, db, store, x) && KeyHolds(c, batch, more, x);
    }
  }

  lemma DeleteRepresents(c: TxOutCodec, db: Db, store: Store, op: OutPoint)
    requires Represents(c, db, store)
    ensures Represents(c, db - {TxOutKey(op)}, Remove(store, [op]))
  {
    hide TxOutKey;
    forall x ensures KeyHolds(c, db - {TxOutKey(op)}, Remove(store, [op]), x) {
      assert KeyHolds(c, db, store, x);
      TxOutKeyIsInjective(op, x);
    }
  }

  // ---------- collecting keys, reading them, handing the answers out ----------

  function Keys(ops: seq<OutPoint>): (r: seq<seq<byte>>)
    ensures |r| == |ops|
    ensures forall i :: 0 <= i < |ops| ==> r[i] == TxOutKey(ops[i])
  {
    Map(ops, op => TxOutKey(op))
  }

  method CollectKeys(txs: seq<Tx>) returns (keys: seq<seq<byte>>)
    ensures keys == Keys(Spends(txs))
  {
    keys := [];
    var i := 0;
    while i < |txs|
      invariant 0 <= i <= |txs|
      invariant keys == Keys(Spends(txs[..i]))
    {
      var inputs, j := txs[i].inputs, 0;
      while j < |inputs|
        invariant 0 <= j <= |inputs|
        invariant keys == Keys(Spends(txs[..i]) + NonNull(inputs[..j]))
      {
        NonNullStep(inputs, j);
        if !inputs[j].IsNull() {
          keys := keys + [TxOutKey(inputs[j])];
        }
        j := j + 1;
      }
      assert inputs[..j] == inputs;
      SpendsStep(txs, i);
      i := i + 1;
    }
    assert txs[..i] == txs;
  }

  function MultiGet(db: Db, keys: seq<seq<byte>>): (r: seq<Option<seq<byte>>>)
    ensures |r| == |keys|
    ensures forall i :: 0 <= i < |keys| ==> r[i] == if keys[i] in db then Some(db[keys[i]]) else None
  {
    Map(keys, k => if k in db then Some(db[k]) else None)
  }

  /** `txOuts` are the stored bytes behind `answers`. */
  ghost predicate BytesOf(c: TxOutCodec, txOuts: seq<Option<seq<byte>>>, answers: seq<Option<TxOut>>) {
    && |txOuts| == |answers|
    && forall i :: 0 <= i < |answers| ==>
         txOuts[i] == if answers[i].Some? then Some(c.encode(answers[i].value)) else None
  }

  lemma MultiGetReadsAnswers(c: TxOutCodec, db: Db, store: Store, ops: seq<OutPoint>)
    requires Represents(c, db, store)
    ensures BytesOf(c, MultiGet(db, Keys(ops)), Answers(store, ops))
  {
    hide TxOutKey;
    forall i | 0 <= i < |ops| ensures KeyHolds(c, db, store, ops[i]) {
    }
  }

  /** The answers found among the first n, all of which were found. */
  function ValuesSoFar(answers: seq<Option<TxOut>>, n: nat): (r: seq<TxOut>)
    requires n <= |answers| && AllFound(answers[..n])
    ensures |r| == n
  {
    Values(answers[..n])
  }

  lemma ValuesStep(answers: seq<Option<TxOut>>, n: nat, m: nat)
    requires m <= n < |answers| && AllFound(answers[..n]) && answers[n].Some?
    ensures AllFound(answers[..n + 1])
    ensures ValuesSoFar(answers, n + 1)[m..] == ValuesSoFar(answers, n)[m..] + [answers[n].value]
  {
    assert answers[..n + 1] == answers[..n] + [answers[n]];
  }

  lemma ValuesPrefix(answers: seq<Option<TxOut>>, m: nat, n: nat)
    requires m <= n <= |answers| && AllFound(answers[..n])
    ensures AllFound(answers[..m]) && ValuesSoFar(answers, n)[..m] == ValuesSoFar(answers, m)
  {
    assert forall i :: 0 <= i < m ==> answers[..n][i] == answers[..m][i];
  }

  /** The inputs of one transaction: `pos` counts the non-null inputs visited, so the answer
      at `pos` is always that of the input at hand. */
  method AttachInputs(c: TxOutCodec, inputs: seq<OutPoint>, txOuts: seq<Option<seq<byte>>>, start: nat,
                      ghost answers: seq<Option<TxOut>>) returns (input: Option<seq<TxOut>>, pos: nat)
    requires DecodesWhatItEncodes(c) && BytesOf(c, txOuts, answers)
    requires start + |NonNull(inputs)| <= |answers| && AllFound(answers[..start])
    ensures input.Some? ==> pos == start + |NonNull(inputs)| && AllFound(answers[..pos])
    ensures input.Some? ==> input.value == ValuesSoFar(answers, pos)[start..]
    ensures input.None? ==> !AllFound(answers)
  {
    var found: seq<TxOut> := [];
    pos := start;
    var j := 0;
    while j < |inputs|
      invariant 0 <= j <= |inputs|
      invariant pos == start + |NonNull(inputs[..j])| <= |answers|
      invariant AllFound(answers[..pos])
      invariant found == ValuesSoFar(answers, pos)[start..]
    {
      NonNullStep(inputs, j);
      NonNullPrefix(inputs, j + 1);
      if !inputs[j].IsNull() {
        var prev := if txOuts[pos].Some? then c.decode(txOuts[pos].value) else None;
        if prev.None? {
          assert answers[pos].None?;
          return None, pos;
        }
        ValuesStep(answers, pos, start);
        found := found + [prev.value];
        pos := pos + 1;
      }
      j := j + 1;
    }
    assert inputs[..j] == inputs;
    input := Some(found);
  }

  method AttachAnswers(c: TxOutCodec, txs: seq<Tx>, txOuts: seq<Option<seq<byte>>>, ghost answers: seq<Option<TxOut>>)
    returns (r: Option<seq<ConnectedTx>>)
    requires DecodesWhatItEncodes(c) && BytesOf(c, txOuts, answers) && |answers| == |Spends(txs)|
    ensures r == if AllFound(answers) then Some(Assemble(txs, Values(answers))) else None
  {
    var done: seq<ConnectedTx> := [];
    var pos, i := 0, 0;
    while i < |txs|
      invariant 0 <= i <= |txs|
      invariant pos == |Spends(txs[..i])| <= |answers|
      invariant AllFound(answers[..pos])
      invariant done == Assemble(txs[..i], ValuesSoFar(answers, pos))
    {
      ghost var start := pos;
      SpendsPrefix(txs, i + 1);
      SpendsStep(txs, i);
      var input, next := AttachInputs(c, txs[i].inputs, txOuts, pos, answers);
      if input.None? {
        return None;
      }
      ValuesPrefix(answers, start, next);
      AssembleStep(txs, i, ValuesSoFar(answers, next), start);
      done := done + [ConnectedTx(txs[i].txid, input.value, txs[i].outputs)];
      pos := next;
      i := i + 1;
    }
    assert txs[..i] == txs && answers[..pos] == answers;
    return Some(done);
  }

  // ---------- the store ----------

  class OnDiskStore {
    const codec: TxOutCodec
    var db: Db
    ghost var contents: Store

    ghost predicate Valid()
      reads this
    {
      DecodesWhatItEncodes(codec) && Represents(codec, db, contents)
    }

    constructor (codec: TxOutCodec)
      requires DecodesWhatItEncodes(codec)
      ensures Valid() && contents == map[]
    {
      this.codec := codec;
      db, contents := map[], map[];
    }

    /** Puts the outputs of one transaction into the write batch. */
    method PutOutputs(batch: Db, tx: Tx, ghost base: Store) returns (r: Db)
      requires Represents(codec, batch, base)
      ensures Represents(codec, r, base + TxOutputs(tx))
    {
      r := batch;
      ghost var more := base;
      var n := 0;
      while n < |tx.outputs|
        invariant 0 <= n <= |tx.outputs|
        invariant Represents(codec, r, more)
        invariant more == base + FirstOutputs(tx, n)
      {
        PutRepresents(codec, r, more, OutPoint(tx.txid, n), tx.outputs[n]);
        FirstOutputsStep(base, tx, n);
        more := more[OutPoint(tx.txid, n) := tx.outputs[n]];
        r := r[TxOutKey(OutPoint(tx.txid, n)) := codec.encode(tx.outputs[n])];
        n := n + 1;
      }
      assert FirstOutputs(tx, n) == TxOutputs(tx);
    }

    method UpdateUnspentCache(block: Block)
      requires Valid()
      modifies this
      ensures Valid() && contents == Insert(old(contents), block)
    {
      var batch: Db := map[];
      var txs, i := block.txdata, 0;
      assert Represents(codec, batch, map[]) by { NothingRepresented(codec); }
      while i < |txs|
        invariant 0 <= i <= |txs|
        invariant Represents(codec, batch, Outputs(txs[..i]))
        invariant Valid() && contents == old(contents)
      {
        assert txs[..i + 1][..i] == txs[..i];
        batch := PutOutputs(batch, txs[i], Outputs(txs[..i]));
        i := i + 1;
      }
      assert txs[..i] == txs;
      WriteRepresents(codec, db, contents, batch, Outputs(txs));
      db := db + batch;
      contents := Insert(contents, block);
    }

    method DeleteKeys(keys: seq<seq<byte>>, ghost ops: seq<OutPoint>)
      requires Valid() && keys == Keys(ops)
      modifies this
      ensures Valid() && contents == Remove(old(contents), ops)
    {
      var k := 0;
      assert contents == Remove(contents, ops[..0]);
      while k < |keys|
        invariant 0 <= k <= |keys|
        invariant Valid() && contents == Remove(old(contents), ops[..k])
      {
        DeleteRepresents(codec, db, contents, ops[k]);
        RemoveStep(old(contents), ops, k);
        db := db - {keys[k]};
        contents := Remove(contents, [ops[k]]);
        k := k + 1;
      }
      assert ops[..k] == ops;
    }

    method ConnectOutpoints(block: Block) returns (r: Option<ConnectedBlock>)
      requires Valid()
      modifies this
      ensures Valid()
      ensures Outcome(r, contents) == ConnectBatch(old(contents), block)
    {
      ghost var ops := Spends(block.txdata);
      var keys := CollectKeys(block.txdata);
      var txOuts := MultiGet(db, keys);
      MultiGetReadsAnswers(codec, db, contents, ops);
      DeleteKeys(keys, ops);
      var txdata := AttachAnswers(codec, block.txdata, txOuts, Answers(old(contents), ops));
      r := if txdata.Some? then Some(ConnectedBlock(block.header, txdata.value)) else None;
    }
  }

  /** The outputs of `tx` numbered below n. */
  function FirstOutputs(tx: Tx, n: nat): (m: Store)
    requires n <= |tx.outputs|
    ensures forall op :: op in m <==> op.txid == tx.txid && op.vout < n
    ensures forall op :: op in m ==> m[op] == tx.outputs[op.vout]
  {
    map k: nat | k < n :: OutPoint(tx.txid, k) := tx.outputs[k]
  }

  lemma FirstOutputsStep(base: Store, tx: Tx, n: nat)
    requires n < |tx.outputs|
    ensures base + FirstOutputs(tx, n + 1) == (base + FirstOutputs(tx, n))[OutPoint(tx.txid, n) := tx.outputs[n]]
  {
    assert FirstOutputs(tx, n + 1) == FirstOutputs(tx, n)[OutPoint(tx.txid, n) := tx.outputs[n]];
    MergeThenPut(base, FirstOutputs(tx, n), OutPoint(tx.txid, n), tx.outputs[n]);
    hide FirstOutputs;
  }

  lemma MergeThenPut<K, V>(a: map<K, V>, b: map<K, V>, k: K, v: V)
    ensures a + b[k := v] == (a + b)[k := v]
  {
  }
}
