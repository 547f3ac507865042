/**
 The unspent outputs as one flat map, the two ways of connecting a block to it, and the
 sequential run of the whole chain that the concurrent pipeline must reproduce.
 */
module FlatStore {
  import opened Wrappers
  import opened Chain

  type Store = map<OutPoint, TxOut>

  /** What connecting one block gives, and the store it leaves. */
  datatype Outcome = Outcome(result: Option<ConnectedBlock>, store: Store)

  function Lookup(store: Store, op: OutPoint): Option<TxOut> {
    if op in store then Some(store[op]) else None
  }

  function Answers(store: Store, ops: seq<OutPoint>): (r: seq<Option<TxOut>>)
    ensures |r| == |ops|
    ensures forall i :: 0 <= i < |ops| ==> r[i] == Lookup(store, ops[i])
  {
    Map(ops, op => Lookup(store, op))
  }

  predicate AllFound(answers: seq<Option<TxOut>>) {
    forall i :: 0 <= i < |answers| ==> answers[i].Some?
  }

  function Values(answers: seq<Option<TxOut>>): (r: seq<TxOut>)
    requires AllFound(answers)
    ensures |r| == |answers|
    ensures forall i :: 0 <= i < |answers| ==> r[i] == answers[i].value
  {
    seq(|answers|, i requires 0 <= i < |answers| => answers[i].value)
  }

  function Insert(store: Store, b: Block): Store {
    store + Outputs(b.txdata)
  }

  function Remove(store: Store, ops: seq<OutPoint>): (r: Store)
    ensures forall op :: op in r <==> op in store && op !in ops
    ensures forall op :: op in r ==> r[op] == store[op]
  {
    map op | op in store && op !in ops :: store[op]
  }

  lemma RemoveNothing(store: Store)
    ensures Remove(store, []) == store
  {
  }

  lemma RemoveStep(store: Store, ops: seq<OutPoint>, k: nat)
    requires k < |ops|
    ensures Remove(store, ops[..k + 1]) == Remove(Remove(store, ops[..k]), [ops[k]])
  {
    assert ops[..k + 1] == ops[..k] + [ops[k]];
  }

  function Attach(b: Block, answers: seq<Option<TxOut>>): Option<ConnectedBlock>
    requires |answers| == |Spends(b.txdata)|
  {
    if AllFound(answers) then Some(ConnectedBlock(b.header, Assemble(b.txdata, Values(answers)))) else None
  }

  /** On-disk order: read every key, delete every key, then look at the answers. */
  function ConnectBatch(store: Store, b: Block): Outcome {
    var ops := Spends(b.txdata);
    Outcome(Attach(b, Answers(store, ops)), Remove(store, ops))
  }

  /** Taking outputs one at a time, until one is missing. */
  datatype Taking = Taking(store: Store, taken: seq<TxOut>, ok: bool)

  function Take(t: Taking, op: OutPoint): Taking {
    if !t.ok then t
    else if op in t.store then Taking(Remove(t.store, [op]), t.taken + [t.store[op]], true)
    else t.(ok := false)
  }

  function TakeAll(store: Store, ops: seq<OutPoint>): (t: Taking)
    ensures t.ok ==> |t.taken| == |ops|
  {
    if ops == [] then Taking(store, [], true)
    else Take(TakeAll(store, ops[..|ops| - 1]), ops[|ops| - 1])
  }

  /** In-memory order: every output is taken out at the input that spends it. */
  function ConnectOneByOne(store: Store, b: Block): Outcome {
    var t := TakeAll(store, Spends(b.txdata));
    Outcome(if t.ok then Some(ConnectedBlock(b.header, Assemble(b.txdata, t.taken))) else None, t.store)
  }

  // ---------- the two orders agree exactly when no outpoint repeats ----------

  /** What taking distinct outpoints one by one amounts to. */
  ghost predicate TakenLikeBatch(store: Store, ops: seq<OutPoint>, t: Taking) {
    && (t.ok <==> AllFound(Answers(store, ops)))
    && (t.ok ==> t.taken == Values(Answers(store, ops)) && t.store == Remove(store, ops))
  }

  lemma TakeOneMore(store: Store, before: seq<OutPoint>, last: OutPoint, t: Taking)
    requires TakenLikeBatch(store, before, t) && last !in before
    ensures TakenLikeBatch(store, before + [last], Take(t, last))
  {
    var ops := before + [last];
    assert Answers(store, ops) == Answers(store, before) + [Lookup(store, last)];
    assert Answers(store, ops)[|before|] == Lookup(store, last);
    assert forall i :: 0 <= i < |before| ==> Answers(store, ops)[i] == Answers(store, before)[i];
    if t.ok && last in store {
      assert Values(Answers(store, ops)) == Values(Answers(store, before)) + [store[last]];
      assert Remove(Remove(store, before), [last]) == Remove(store, ops);
    }
  }

  lemma {:induction false} TakeAllOfDistinct(store: Store, ops: seq<OutPoint>)
    requires Distinct(ops)
    ensures TakenLikeBatch(store, ops, TakeAll(store, ops))
  {
    if ops == [] {
      assert Remove(store, ops) == store;
    } else {
      var before, last := ops[..|ops| - 1], ops[|ops| - 1];
      TakeAllOfDistinct(store, before);
      TakeOneMore(store, before, last, TakeAll(store, before));
      assert ops == before + [last];
    }
  }

  lemma {:induction false} TakenStaysTaken(store: Store, ops: seq<OutPoint>, i: nat)
    requires i < |ops| && TakeAll(store, ops).ok
    ensures ops[i] !in TakeAll(store, ops).store
  {
    if i == |ops| - 1 {
    } else {
      TakenStaysTaken(store, ops[..|ops| - 1], i);
    }
  }

  /** A failed taking keeps its store: nothing more is removed. */
  lemma {:induction false} FailedTakingStays(store: Store, ops: seq<OutPoint>, n: nat)
    requires n <= |ops| && !TakeAll(store, ops[..n]).ok
    ensures TakeAll(store, ops) == TakeAll(store, ops[..n])
    decreases |ops|
  {
    if n == |ops| {
      assert ops[..n] == ops;
    } else {
      assert ops[..|ops| - 1][..n] == ops[..n];
      FailedTakingStays(store, ops[..|ops| - 1], n);
    }
  }

  lemma RepeatedOutpointFails(store: Store, ops: seq<OutPoint>, i: nat, j: nat)
    requires i < j < |ops| && ops[i] == ops[j]
    ensures !TakeAll(store, ops).ok
  {
    if TakeAll(store, ops[..j]).ok {
      TakenStaysTaken(store, ops[..j], i);
    }
    assert ops[..j + 1][..j] == ops[..j];
    FailedTakingStays(store, ops, j + 1);
  }

  /** A store that has everything the block asks for. */
  function FullStore(ops: seq<OutPoint>): (r: Store)
    ensures forall op :: op in r <==> op in ops
  {
    map op | op in ops :: TxOut(0, [])
  }

  ghost predicate SameOutcome(store: Store, b: Block) {
    && ConnectOneByOne(store, b).result == ConnectBatch(store, b).result
    && (ConnectBatch(store, b).result.Some? ==> ConnectOneByOne(store, b).store == ConnectBatch(store, b).store)
  }

  /** Something is missing: then the taking fails too. */
  lemma MissingIsNotTaken(store: Store, ops: seq<OutPoint>, i: nat)
    requires i < |ops| && ops[i] !in store
    ensures !TakeAll(store, ops).ok
  {
    if TakeAll(store, ops[..i]).ok {
      TakingOnlyRemoves(store, ops[..i]);
    }
    assert ops[..i + 1][..i] == ops[..i];
    FailedTakingStays(store, ops, i + 1);
  }

  lemma {:induction false} TakingOnlyRemoves(store: Store, ops: seq<OutPoint>)
    ensures forall op :: op in TakeAll(store, ops).store ==> op in store
  {
    if ops == [] {
    } else {
      TakingOnlyRemoves(store, ops[..|ops| - 1]);
    }
  }

  /** From one store, the two versions agree on a block if and only if it repeats no outpoint or
      one of its outpoints is missing. */
  lemma OrdersAgreeFromStoreIff(store: Store, b: Block)
    ensures SameOutcome(store, b) <==> Distinct(Spends(b.txdata)) || !AllFound(Answers(store, Spends(b.txdata)))
  {
    var ops := Spends(b.txdata);
    if Distinct(ops) {
      TakeAllOfDistinct(store, ops);
    } else if !AllFound(Answers(store, ops)) {
      var i :| 0 <= i < |ops| && Answers(store, ops)[i].None?;
      MissingIsNotTaken(store, ops, i);
    } else {
      var i, j :| 0 <= i < j < |ops| && ops[i] == ops[j];
      RepeatedOutpointFails(store, ops, i, j);
    }
  }

  /** The in-memory and on-disk versions agree on a block, from every store, if and only if
      the block does not spend one outpoint twice. */
  lemma OrdersAgreeIff(b: Block)
    ensures (forall store :: SameOutcome(store, b)) <==> Distinct(Spends(b.txdata))
  {
    var ops := Spends(b.txdata);
    forall store ensures SameOutcome(store, b) <==> Distinct(ops) || !AllFound(Answers(store, ops)) {
      OrdersAgreeFromStoreIff(store, b);
    }
    hide SameOutcome, Distinct;
    assert AllFound(Answers(FullStore(ops), ops));
    assert SameOutcome(FullStore(ops), b) <==> Distinct(ops);
  }

  // ---------- the sequential run ----------

  function Created(chain: seq<Block>, h: nat): Store
    requires h < |chain|
  {
    Outputs(chain[h].txdata)
  }

  function Spent(chain: seq<Block>, h: nat): seq<OutPoint>
    requires h < |chain|
  {
    Spends(chain[h].txdata)
  }

  /** The store after blocks 0 .. h-1 were processed one after the other. */
  function SequentialStore(chain: seq<Block>, h: nat): Store
    requires h <= |chain|
  {
    if h == 0 then map[] else ConnectBatch(Insert(SequentialStore(chain, h - 1), chain[h - 1]), chain[h - 1]).store
  }

  /** What the sequential run yields for block h. */
  function SequentialBlock(chain: seq<Block>, h: nat): Option<ConnectedBlock>
    requires h < |chain|
  {
    ConnectBatch(Insert(SequentialStore(chain, h), chain[h]), chain[h]).result
  }

  // ---------- chains without repeated or dangling outpoints ----------

  /** No two transactions of the chain have the same txid. */
  ghost predicate UniqueTxids(chain: seq<Block>) {
    forall h, i, k, j | 0 <= h < |chain| && 0 <= i < |chain[h].txdata| && 0 <= k < |chain| && 0 <= j < |chain[k].txdata| ::
      chain[h].txdata[i].txid == chain[k].txdata[j].txid ==> h == k && i == j
  }

  /** No outpoint is spent twice anywhere in the chain. */
  ghost predicate NoDoubleSpend(chain: seq<Block>) {
    forall h, i, k, j | 0 <= h < |chain| && 0 <= i < |Spent(chain, h)| && 0 <= k < |chain| && 0 <= j < |Spent(chain, k)| ::
      Spent(chain, h)[i] == Spent(chain, k)[j] ==> h == k && i == j
  }

  /** Every non-null input refers to an output of the same or an earlier block. */
  ghost predicate NoDanglingInput(chain: seq<Block>) {
    forall h, i :: 0 <= h < |chain| && 0 <= i < |Spent(chain, h)| ==> CreatedUpTo(chain, h, Spent(chain, h)[i])
  }

  ghost predicate CreatedUpTo(chain: seq<Block>, h: nat, op: OutPoint)
    requires h < |chain|
  {
    exists k :: 0 <= k <= h && op in Created(chain, k)
  }

  ghost predicate ValidChain(chain: seq<Block>) {
    UniqueTxids(chain) && NoDoubleSpend(chain) && NoDanglingInput(chain)
  }

  lemma BlockTxidsDistinct(chain: seq<Block>, h: nat)
    requires UniqueTxids(chain) && h < |chain|
    ensures DistinctTxids(chain[h].txdata)
  {
  }

  lemma ValidIsUnique(chain: seq<Block>)
    requires ValidChain(chain)
    ensures UniqueTxids(chain)
  {
  }

  /** Outputs of different blocks never share an outpoint. */
  lemma OneCreator(chain: seq<Block>, h: nat, k: nat, op: OutPoint)
    requires UniqueTxids(chain) && h < |chain| && k < |chain|
    requires op in Created(chain, h) && op in Created(chain, k)
    ensures h == k
  {
    OutputsKeys(chain[h].txdata, op);
    OutputsKeys(chain[k].txdata, op);
  }

  /** Everything ever created. */
  function AllOutputs(chain: seq<Block>): Store {
    if chain == [] then map[] else AllOutputs(chain[..|chain| - 1]) + Created(chain, |chain| - 1)
  }

  /** The output an outpoint refers to, anywhere in the chain. */
  function Origin(chain: seq<Block>): OutPoint -> TxOut {
    var all := AllOutputs(chain);
    op => if op in all then all[op] else TxOut(0, [])
  }

  lemma CreatedBeforeLast(chain: seq<Block>, op: OutPoint)
    requires chain != []
    ensures CreatedBefore(chain, |chain|, op)
       <==> CreatedBefore(chain[..|chain| - 1], |chain| - 1, op) || op in Created(chain, |chain| - 1)
  {
    var before, last := chain[..|chain| - 1], |chain| - 1;
    assert forall h :: 0 <= h < last ==> Created(chain, h) == Created(before, h);
  }

  lemma {:induction false} AllOutputsAreCreated(chain: seq<Block>, op: OutPoint)
    ensures op in AllOutputs(chain) <==> CreatedBefore(chain, |chain|, op)
  {
    if chain == [] {
    } else {
      AllOutputsAreCreated(chain[..|chain| - 1], op);
      CreatedBeforeLast(chain, op);
    }
  }

  lemma {:induction false} CreatedValue(chain: seq<Block>, h: nat, op: OutPoint)
    requires UniqueTxids(chain) && h < |chain| && op in Created(chain, h)
    ensures op in AllOutputs(chain) && AllOutputs(chain)[op] == Created(chain, h)[op]
    ensures Origin(chain)(op) == Created(chain, h)[op]
  {
    var last := |chain| - 1;
    if h == last {
    } else {
      var before := chain[..last];
      assert Created(before, h) == Created(chain, h);
      assert UniqueTxids(before) by { PrefixUnique(chain, last); }
      CreatedValue(before, h, op);
      if op in Created(chain, last) {
        OneCreator(chain, h, last, op);
      }
    }
  }

  lemma PrefixUnique(chain: seq<Block>, n: nat)
    requires UniqueTxids(chain) && n <= |chain|
    ensures UniqueTxids(chain[..n])
  {
  }

  /** The sequential store holds what the first h blocks created and did not spend. */
  ghost predicate HoldsUnspent(chain: seq<Block>, h: nat, store: Store)
    requires h <= |chain|
  {
    forall op :: HeldIffUnspent(chain, h, store, op)
  }

  ghost predicate HeldIffUnspent(chain: seq<Block>, h: nat, store: Store, op: OutPoint)
    requires h <= |chain|
  {
    && (op in store <==> CreatedBefore(chain, h, op) && !SpentBefore(chain, h, op))
    && (op in store ==> store[op] == Origin(chain)(op))
  }

  ghost predicate CreatedBefore(chain: seq<Block>, h: nat, op: OutPoint)
    requires h <= |chain|
  {
    exists k :: 0 <= k < h && op in Created(chain, k)
  }

  ghost predicate SpentBefore(chain: seq<Block>, h: nat, op: OutPoint)
    requires h <= |chain|
  {
    exists k :: 0 <= k < h && op in Spent(chain, k)
  }

  lemma {:induction false} SequentialStoreHoldsUnspent(chain: seq<Block>, h: nat)
    requires ValidChain(chain) && h <= |chain|
    ensures HoldsUnspent(chain, h, SequentialStore(chain, h))
  {
    hide ValidChain, HeldIffUnspent, ConnectBatch, Insert;
    forall op
      ensures HeldIffUnspent(chain, h, SequentialStore(chain, h), op)
    {
      if h == 0 {
        NothingHeldAtFirst(chain, op);
      } else {
        SequentialStoreHoldsUnspent(chain, h - 1);
        StoreStep(chain, h - 1, op);
      }
    }
  }

  lemma NothingHeldAtFirst(chain: seq<Block>, op: OutPoint)
    ensures HeldIffUnspent(chain, 0, map[], op)
  {
  }

  lemma StoreStep(chain: seq<Block>, h: nat, op: OutPoint)
    requires ValidChain(chain) && h < |chain|
    requires HoldsUnspent(chain, h, SequentialStore(chain, h))
    ensures HeldIffUnspent(chain, h + 1, SequentialStore(chain, h + 1), op)
  {
    hide ValidChain, HeldIffUnspent, Insert, Remove, Attach, Answers;
    var store := SequentialStore(chain, h);
    assert HeldIffUnspent(chain, h, store, op);
    HeldAfterBlock(chain, h, store, op);
  }

  lemma OneMoreBlock(chain: seq<Block>, h: nat, op: OutPoint)
    requires h < |chain|
    ensures CreatedBefore(chain, h + 1, op) <==> CreatedBefore(chain, h, op) || op in Created(chain, h)
    ensures SpentBefore(chain, h + 1, op) <==> SpentBefore(chain, h, op) || op in Spent(chain, h)
  {
  }

  lemma HeldAfterBlock(chain: seq<Block>, h: nat, store: Store, op: OutPoint)
    requires ValidChain(chain) && h < |chain| && HeldIffUnspent(chain, h, store, op)
    ensures HeldIffUnspent(chain, h + 1, Remove(Insert(store, chain[h]), Spent(chain, h)), op)
  {
    OneMoreBlock(chain, h, op);
    hide ValidChain, CreatedBefore, SpentBefore, Origin;
    if op in Created(chain, h) {
      ValidIsUnique(chain);
      CreatedValue(chain, h, op);
      if SpentBefore(chain, h, op) {
        SpentAfterCreation(chain, h, op);
      }
    }
  }

  /** An output is never spent by a block before the one that creates it. */
  lemma SpentAfterCreation(chain: seq<Block>, h: nat, op: OutPoint)
    requires ValidChain(chain) && h < |chain| && op in Created(chain, h)
    ensures !SpentBefore(chain, h, op)
  {
    if SpentBefore(chain, h, op) {
      var k :| 0 <= k < h && op in Spent(chain, k);
      var i :| 0 <= i < |Spent(chain, k)| && Spent(chain, k)[i] == op;
      assert CreatedUpTo(chain, k, op);
      var c :| 0 <= c <= k && op in Created(chain, c);
      OneCreator(chain, h, c, op);
    }
  }

  /** On a valid chain the sequential run connects every block, each input to its origin. */
  lemma SequentialBlockConnects(chain: seq<Block>, h: nat)
    requires ValidChain(chain) && h < |chain|
    ensures SequentialBlock(chain, h)
         == Some(ConnectedBlock(chain[h].header, ConnectAll(chain[h].txdata, Origin(chain))))
  {
    SequentialStoreHoldsUnspent(chain, h);
    var store, ops := Insert(SequentialStore(chain, h), chain[h]), Spent(chain, h);
    forall i | 0 <= i < |ops|
      ensures Lookup(store, ops[i]) == Some(Origin(chain)(ops[i]))
    {
      InputIsFound(chain, h, i);
    }
    assert Values(Answers(store, ops)) == Map(ops, Origin(chain));
    AssembleConnects(chain[h].txdata, Origin(chain));
  }

  lemma InputIsFound(chain: seq<Block>, h: nat, i: nat)
    requires ValidChain(chain) && h < |chain| && i < |Spent(chain, h)|
    requires HoldsUnspent(chain, h, SequentialStore(chain, h))
    ensures Lookup(Insert(SequentialStore(chain, h), chain[h]), Spent(chain, h)[i])
         == Some(Origin(chain)(Spent(chain, h)[i]))
  {
    var op := Spent(chain, h)[i];
    assert HeldIffUnspent(chain, h, SequentialStore(chain, h), op);
    assert CreatedUpTo(chain, h, op);
    var k :| 0 <= k <= h && op in Created(chain, k);
    CreatedValue(chain, k, op);
    if k < h {
      assert CreatedBefore(chain, h, op);
      assert !SpentBefore(chain, h, op) by { SpentOnce(chain, h, i); }
      if op in Created(chain, h) {
        OneCreator(chain, h, k, op);
      }
    }
  }

  lemma SpentOnce(chain: seq<Block>, h: nat, i: nat)
    requires NoDoubleSpend(chain) && h < |chain| && i < |Spent(chain, h)|
    ensures !SpentBefore(chain, h, Spent(chain, h)[i])
  {
  }
}
