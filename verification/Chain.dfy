/** Blocks, transactions and outpoints, as the connecting code sees them. */
module Chain {
  import opened Bits
  import opened Wrappers
  import opened IndexRecord

  type Txid = t: seq<byte> | |t| == 32 witness seq(32, _ => 0)

  datatype OutPoint = OutPoint(txid: Txid, vout: U32) {
    predicate IsNull() {
      (forall i :: 0 <= i < |txid| ==> txid[i] == 0) && vout == U32_MAX
    }
  }

  datatype TxOut = TxOut(value: U64, scriptPubkey: seq<byte>)

  /** Output positions of one transaction are u32 values. */
  type TxOuts = s: seq<TxOut> | |s| < 0x1_0000_0000

  /** `txid` is what hashing the transaction gives; inputs are the outpoints they refer to. */
  datatype Tx = Tx(txid: Txid, inputs: seq<OutPoint>, outputs: TxOuts) {
    predicate IsCoinbase() {
      |inputs| == 1 && inputs[0].IsNull()
    }
  }

  datatype Block = Block(header: Header, txdata: seq<Tx>)

  /** A transaction whose inputs are replaced by the outputs they spend; null inputs are dropped. */
  datatype ConnectedTx = ConnectedTx(txid: Txid, input: seq<TxOut>, output: seq<TxOut>)

  datatype ConnectedBlock = ConnectedBlock(header: Header, txdata: seq<ConnectedTx>)

  // ---------- what a block creates and spends ----------

  function NonNull(inputs: seq<OutPoint>): seq<OutPoint> {
    if inputs == [] then []
    else
      var before, last := NonNull(inputs[..|inputs| - 1]), inputs[|inputs| - 1];
      if last.IsNull() then before else before + [last]
  }

  lemma {:induction false} NonNullMembers(inputs: seq<OutPoint>, op: OutPoint)
    ensures op in NonNull(inputs) <==> op in inputs && !op.IsNull()
    ensures |NonNull(inputs)| <= |inputs|
  {
    if inputs == [] {
    } else {
      NonNullMembers(inputs[..|inputs| - 1], op);
      assert inputs == inputs[..|inputs| - 1] + [inputs[|inputs| - 1]];
    }
  }

  /** The non-null inputs of all transactions, in block order. */
  function Spends(txs: seq<Tx>): seq<OutPoint> {
    if txs == [] then [] else Spends(txs[..|txs| - 1]) + NonNull(txs[|txs| - 1].inputs)
  }

  lemma NonNullStep(inputs: seq<OutPoint>, j: nat)
    requires j < |inputs|
    ensures NonNull(inputs[..j + 1])
         == NonNull(inputs[..j]) + if inputs[j].IsNull() then [] else [inputs[j]]
  {
    assert inputs[..j + 1][..j] == inputs[..j];
  }

  lemma NonNullOfOne(op: OutPoint)
    ensures NonNull([op]) == if op.IsNull() then [] else [op]
  {
    assert [op][..0] == [];
  }

  lemma SpendsOfOne(tx: Tx)
    ensures Spends([tx]) == NonNull(tx.inputs)
  {
    assert [tx][..0] == [];
  }

  lemma SpendsStep(txs: seq<Tx>, i: nat)
    requires i < |txs|
    ensures Spends(txs[..i + 1]) == Spends(txs[..i]) + NonNull(txs[i].inputs)
  {
    assert txs[..i + 1][..i] == txs[..i];
  }

  lemma NonNullPrefix(inputs: seq<OutPoint>, j: nat)
    requires j <= |inputs|
    ensures |NonNull(inputs[..j])| <= |NonNull(inputs)|
    ensures NonNull(inputs)[..|NonNull(inputs[..j])|] == NonNull(inputs[..j])
    decreases |inputs| - j
  {
    if j == |inputs| {
      assert inputs[..j] == inputs;
    } else {
      NonNullStep(inputs, j);
      NonNullPrefix(inputs, j + 1);
      assert NonNull(inputs)[..|NonNull(inputs[..j])|]
        == NonNull(inputs)[..|NonNull(inputs[..j + 1])|][..|NonNull(inputs[..j])|];
    }
  }

  lemma SpendsPrefix(txs: seq<Tx>, i: nat)
    requires i <= |txs|
    ensures |Spends(txs[..i])| <= |Spends(txs)|
    ensures Spends(txs)[..|Spends(txs[..i])|] == Spends(txs[..i])
    decreases |txs| - i
  {
    if i == |txs| {
      assert txs[..i] == txs;
    } else {
      SpendsPrefix(txs, i + 1);
      SpendsStep(txs, i);
      assert Spends(txs)[..|Spends(txs[..i])|] == Spends(txs)[..|Spends(txs[..i + 1])|][..|Spends(txs[..i])|];
    }
  }

  function TxOutputs(tx: Tx): (m: map<OutPoint, TxOut>)
    ensures forall op :: op in m <==> op.txid == tx.txid && op.vout < |tx.outputs|
    ensures forall op :: op in m ==> m[op] == tx.outputs[op.vout]
  {
    map n: nat | n < |tx.outputs| :: OutPoint(tx.txid, n) := tx.outputs[n]
  }

  function Outputs(txs: seq<Tx>): map<OutPoint, TxOut> {
    if txs == [] then map[] else Outputs(txs[..|txs| - 1]) + TxOutputs(txs[|txs| - 1])
  }

  predicate Distinct<T(==)>(s: seq<T>) {
    forall i, j :: 0 <= i < j < |s| ==> s[i] != s[j]
  }

  predicate DistinctTxids(txs: seq<Tx>) {
    forall i, j :: 0 <= i < j < |txs| ==> txs[i].txid != txs[j].txid
  }

  lemma {:induction false} OutputsKeys(txs: seq<Tx>, op: OutPoint)
    ensures op in Outputs(txs)
       <==> exists j :: 0 <= j < |txs| && txs[j].txid == op.txid && op.vout < |txs[j].outputs|
  {
    if txs == [] {
    } else {
      var before, last := txs[..|txs| - 1], txs[|txs| - 1];
      OutputsKeys(before, op);
      if op in Outputs(before) {
        var j :| 0 <= j < |before| && before[j].txid == op.txid && op.vout < |before[j].outputs|;
        assert txs[j] == before[j];
      }
      if op in TxOutputs(last) {
        assert txs[|txs| - 1].txid == op.txid;
      }
    }
  }

  lemma {:induction false} OutputsValue(txs: seq<Tx>, j: nat, op: OutPoint)
    requires DistinctTxids(txs) && j < |txs|
    requires txs[j].txid == op.txid && op.vout < |txs[j].outputs|
    ensures op in Outputs(txs) && Outputs(txs)[op] == txs[j].outputs[op.vout]
  {
    if j == |txs| - 1 {
    } else {
      OutputsValue(txs[..|txs| - 1], j, op);
    }
  }

  // ---------- attaching answers to inputs ----------

  /** The transactions with one answer per non-null input, taken in order. */
  function Assemble(txs: seq<Tx>, answers: seq<TxOut>): (r: seq<ConnectedTx>)
    requires |answers| == |Spends(txs)|
    ensures |r| == |txs|
  {
    if txs == [] then []
    else
      var last := txs[|txs| - 1];
      var cut := |answers| - |NonNull(last.inputs)|;
      Assemble(txs[..|txs| - 1], answers[..cut]) + [ConnectedTx(last.txid, answers[cut..], last.outputs)]
  }

  lemma AssembleStep(txs: seq<Tx>, i: nat, values: seq<TxOut>, start: nat)
    requires i < |txs| && start == |Spends(txs[..i])|
    requires |values| == start + |NonNull(txs[i].inputs)|
    ensures |Spends(txs[..i + 1])| == |values|
    ensures Assemble(txs[..i + 1], values)
         == Assemble(txs[..i], values[..start]) + [ConnectedTx(txs[i].txid, values[start..], txs[i].outputs)]
  {
    hide Spends, NonNull, Assemble;
    SpendsStep(txs, i);
    AssembleLast(txs[..i + 1], values);
    assert txs[..i + 1][..i] == txs[..i];
  }

  lemma AssembleLast(txs: seq<Tx>, values: seq<TxOut>)
    requires txs != [] && |values| == |Spends(txs)|
    ensures var last := txs[|txs| - 1];
      var cut := |values| - |NonNull(last.inputs)|;
      && 0 <= cut == |Spends(txs[..|txs| - 1])|
      && Assemble(txs, values)
         == Assemble(txs[..|txs| - 1], values[..cut]) + [ConnectedTx(last.txid, values[cut..], last.outputs)]
  {
  }

  /** A transaction connected through a lookup function. */
  function Connect(tx: Tx, origin: OutPoint -> TxOut): ConnectedTx {
    ConnectedTx(tx.txid, Map(NonNull(tx.inputs), origin), tx.outputs)
  }

  /** The answers that were found, in order. */
  function Found(answers: seq<Option<TxOut>>): seq<TxOut> {
    if answers == [] then []
    else
      var before, last := Found(answers[..|answers| - 1]), answers[|answers| - 1];
      if last.Some? then before + [last.value] else before
  }

  function Map<A, B>(s: seq<A>, f: A -> B): (r: seq<B>)
    ensures |r| == |s|
    ensures forall i :: 0 <= i < |s| ==> r[i] == f(s[i])
  {
    seq(|s|, i requires 0 <= i < |s| => f(s[i]))
  }

  lemma MapOfConcat<A, B>(s: seq<A>, t: seq<A>, f: A -> B)
    ensures Map(s + t, f) == Map(s, f) + Map(t, f)
    ensures Map(s + t, f)[..|s|] == Map(s, f) && Map(s + t, f)[|s|..] == Map(t, f)
  {
  }

  function ConnectAll(txs: seq<Tx>, origin: OutPoint -> TxOut): (r: seq<ConnectedTx>)
    ensures |r| == |txs|
    ensures forall i :: 0 <= i < |txs| ==> r[i] == Connect(txs[i], origin)
  {
    if txs == [] then [] else ConnectAll(txs[..|txs| - 1], origin) + [Connect(txs[|txs| - 1], origin)]
  }

  /** Handing out the answers in order puts each of them at the input it answers. */
  lemma {:induction false} AssembleConnects(txs: seq<Tx>, origin: OutPoint -> TxOut)
    ensures Assemble(txs, Map(Spends(txs), origin)) == ConnectAll(txs, origin)
  {
    if txs == [] {
    } else {
      var before, last := txs[..|txs| - 1], txs[|txs| - 1];
      AssembleConnects(before, origin);
      MapOfConcat(Spends(before), NonNull(last.inputs), origin);
    }
  }
}
