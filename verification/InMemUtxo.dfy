/** The in-memory unspent store: a map from txid to the slot array of its outputs. */
module InMemUtxo {
  import opened Wrappers
  import opened Chain
  import opened FlatStore
  import VecMap

  function WithoutTx(store: Store, t: Txid): (r: Store)
    ensures forall op :: op in r <==> op in store && op.txid != t
    ensures forall op :: op in r ==> r[op] == store[op]
  {
    map op | op in store && op.txid != t :: store[op]
  }

  /** Entering a transaction replaces whatever was stored under its txid. */
  function ReplaceTxs(store: Store, txs: seq<Tx>): Store {
    if txs == [] then store
    else WithoutTx(ReplaceTxs(store, txs[..|txs| - 1]), txs[|txs| - 1].txid) + TxOutputs(txs[|txs| - 1])
  }

  lemma WithoutAbsentTx(store: Store, t: Txid)
    requires forall op :: op in store ==> op.txid != t
    ensures WithoutTx(store, t) == store
  {
  }

  lemma LastTxidIsNew(txs: seq<Tx>, op: OutPoint)
    requires txs != [] && DistinctTxids(txs) && op in Outputs(txs[..|txs| - 1])
    ensures op.txid != txs[|txs| - 1].txid
  {
    OutputsKeys(txs[..|txs| - 1], op);
  }

  /** With distinct txids that the store does not know yet, replacing is inserting. */
  lemma {:induction false} ReplaceIsInsert(store: Store, txs: seq<Tx>)
    requires DistinctTxids(txs)
    requires forall op, j :: op in store && 0 <= j < |txs| ==> op.txid != txs[j].txid
    ensures ReplaceTxs(store, txs) == store + Outputs(txs)
  {
    if txs == [] {
      assert store + Outputs(txs) == store;
    } else {
      var before, last := txs[..|txs| - 1], txs[|txs| - 1];
      ReplaceIsInsert(store, before);
      hide *;
      forall op | op in store + Outputs(before) ensures op.txid != last.txid {
        if op in Outputs(before) {
          LastTxidIsNew(txs, op);
        }
      }
      WithoutAbsentTx(store + Outputs(before), last.txid);
      InsertStep(store, txs);
    }
  }

  lemma InsertStep(store: Store, txs: seq<Tx>)
    requires txs != []
    ensures WithoutTx(ReplaceTxs(store, txs[..|txs| - 1]), txs[|txs| - 1].txid) + TxOutputs(txs[|txs| - 1])
         == ReplaceTxs(store, txs)
    ensures store + Outputs(txs[..|txs| - 1]) + TxOutputs(txs[|txs| - 1]) == store + Outputs(txs)
  {
    MergeIsAssociative(store, Outputs(txs[..|txs| - 1]), TxOutputs(txs[|txs| - 1]));
    hide WithoutTx, TxOutputs;
  }

  lemma MergeIsAssociative<K, V>(a: map<K, V>, b: map<K, V>, c: map<K, V>)
    ensures a + b + c == a + (b + c)
  {
  }

  // ---------- the slot arrays stand for the flat store ----------

  type Arrays = map<Txid, seq<Option<TxOut>>>

  function SlotIn(arrays: Arrays, op: OutPoint): Option<TxOut> {
    if op.txid in arrays && op.vout < |arrays[op.txid]| then arrays[op.txid][op.vout] else None
  }

  /** Every occupied slot is an entry of the store, and every entry an occupied slot. */
  ghost predicate Shows(arrays: Arrays, store: Store) {
    forall op :: Lookup(store, op) == SlotIn(arrays, op)
  }

  lemma AddShows(arrays: Arrays, store: Store, tx: Tx, slots: seq<Option<TxOut>>)
    requires Shows(arrays, store) && |slots| == |tx.outputs|
    requires forall n :: 0 <= n < |slots| ==> slots[n] == Some(tx.outputs[n])
    ensures Shows(arrays[tx.txid := slots], WithoutTx(store, tx.txid) + TxOutputs(tx))
  {
    forall op ensures Lookup(WithoutTx(store, tx.txid) + TxOutputs(tx), op) == SlotIn(arrays[tx.txid := slots], op) {
      assert Lookup(store, op) == SlotIn(arrays, op);
    }
  }

  lemma TakeShows(arrays: Arrays, store: Store, op: OutPoint)
    requires Shows(arrays, store) && op.txid in arrays && op.vout < |arrays[op.txid]|
    ensures Shows(arrays[op.txid := arrays[op.txid][op.vout := None]], Remove(store, [op]))
  {
    forall x ensures Lookup(Remove(store, [op]), x)
                  == SlotIn(arrays[op.txid := arrays[op.txid][op.vout := None]], x)
    {
      assert Lookup(store, x) == SlotIn(arrays, x);
    }
  }

  /** Taking what is not there changes nothing. */
  lemma MissShows(arrays: Arrays, store: Store, op: OutPoint)
    requires Shows(arrays, store) && SlotIn(arrays, op).None?
    ensures Remove(store, [op]) == store
  {
    assert Lookup(store, op) == SlotIn(arrays, op);
  }

  /** An array after one slot was taken; an index out of range takes nothing. */
  function WithoutSlot(slots: seq<Option<TxOut>>, n: nat): seq<Option<TxOut>> {
    if n < |slots| then slots[n := None] else slots
  }

  lemma WithoutSlotShows(arrays: Arrays, store: Store, op: OutPoint)
    requires Shows(arrays, store) && op.txid in arrays
    ensures Shows(arrays[op.txid := WithoutSlot(arrays[op.txid], op.vout)], Remove(store, [op]))
  {
    if op.vout < |arrays[op.txid]| {
      TakeShows(arrays, store, op);
    } else {
      MissShows(arrays, store, op);
      assert arrays[op.txid := arrays[op.txid]] == arrays;
    }
  }

  /** Dropping an array with no slot left loses no output. */
  lemma DropShows(arrays: Arrays, store: Store, t: Txid)
    requires Shows(arrays, store) && t in arrays && VecMap.AllTaken(arrays[t])
    ensures Shows(arrays - {t}, store)
  {
    forall op ensures Lookup(store, op) == SlotIn(arrays - {t}, op) {
      assert Lookup(store, op) == SlotIn(arrays, op);
    }
  }

  class InMemStore {
    var cache: map<Txid, VecMap.VecMap<TxOut>>
    ghost var contents: Store
    ghost var Repr: set<object>

    ghost predicate Owned()
      reads this, Repr
    {
      && this in Repr
      && (forall t :: t in cache ==> cache[t] in Repr && cache[t].inner in Repr && cache[t].Valid())
      && (forall t, u :: t in cache && u in cache && t != u ==>
            cache[t] != cache[u] && cache[t].inner != cache[u].inner)
    }

    /** What the slot arrays hold now. */
    ghost function Slots(): Arrays
      reads this, Repr
      requires Owned()
    {
      map t | t in cache :: cache[t].inner[..]
    }

    ghost predicate Valid()
      reads this, Repr
    {
      Owned() && Shows(Slots(), contents)
    }

    constructor ()
      ensures Valid() && fresh(Repr) && contents == map[]
    {
      cache, contents, Repr := map[], map[], {this};
    }

    /** A slot array with every output of `tx` in its place. */
    method NewVecMap(tx: Tx) returns (v: VecMap.VecMap<TxOut>)
      ensures fresh(v) && fresh(v.inner) && v.Valid()
      ensures v.inner.Length == |tx.outputs|
      ensures forall n :: 0 <= n < |tx.outputs| ==> v.inner[n] == Some(tx.outputs[n])
    {
      var outs := new Option<TxOut>[|tx.outputs|](n requires 0 <= n < |tx.outputs| => Some(tx.outputs[n]));
      v := new VecMap.VecMap.FromVec(outs);
    }

    /** Enters a slot array under its txid. */
    method PutArray(t: Txid, v: VecMap.VecMap<TxOut>, ghost after: Store)
      requires Owned() && v.Valid() && v !in Repr && v.inner !in Repr
      modifies this
      ensures Owned() && Repr == old(Repr) + {v, v.inner} && contents == after
      ensures Slots() == old(Slots())[t := v.inner[..]]
    {
      hide VecMap.Counted, VecMap.VecMap.Valid, VecMap.VecMap.Value;
      ghost var before, slots := cache, Slots();
      cache := cache[t := v];
      Repr := Repr + {v, v.inner};
      contents := after;
      assert forall u :: u in before ==> before[u].inner[..] == slots[u] && before[u] != v && before[u].inner != v.inner;
    }

    method AddTx(tx: Tx)
      requires Valid()
      modifies this
      ensures Valid() && fresh(Repr - old(Repr))
      ensures contents == WithoutTx(old(contents), tx.txid) + TxOutputs(tx)
    {
      hide Shows, WithoutTx, TxOutputs, VecMap.Counted;
      var v := NewVecMap(tx);
      AddShows(Slots(), contents, tx, v.inner[..]);
      PutArray(tx.txid, v, WithoutTx(contents, tx.txid) + TxOutputs(tx));
    }

    method UpdateUnspentCache(block: Block)
      requires Valid()
      modifies this
      ensures Valid() && fresh(Repr - old(Repr))
      ensures contents == ReplaceTxs(old(contents), block.txdata)
    {
      var txs, i := block.txdata, 0;
      while i < |txs|
        invariant 0 <= i <= |txs|
        invariant Valid() && fresh(Repr - old(Repr))
        invariant contents == ReplaceTxs(old(contents), txs[..i])
      {
        assert txs[..i + 1][..i] == txs[..i];
        AddTx(txs[i]);
        i := i + 1;
      }
      assert txs[..i] == txs;
    }

    /** Looks the txid up, takes the slot, and drops the key when no slot is left. */
    method TakeOutput(op: OutPoint) returns (out: Option<TxOut>)
      requires Valid()
      modifies Repr
      ensures Valid() && Repr == old(Repr)
      ensures out == Lookup(old(contents), op)
      ensures contents == Remove(old(contents), [op])
    {
      assert Lookup(contents, op) == SlotIn(Slots(), op);
      hide Shows, Remove, Lookup, VecMap.Counted, VecMap.VecMap.Valid;
      if op.txid !in cache {
        MissShows(Slots(), contents, op);
        return None;
      }
      out := TakeSlot(op);
      var empty := cache[op.txid].IsEmpty();
      if empty {
        DropShows(Slots(), contents, op.txid);
        DropKey(op.txid);
      }
    }

    method DropKey(t: Txid)
      requires Owned() && t in cache
      modifies this`cache
      ensures Owned() && Slots() == old(Slots()) - {t}
    {
      hide VecMap.Counted;
      cache := cache - {t};
    }

    /** Removes one slot of an array in the cache. */
    method RemoveSlot(op: OutPoint, ghost after: Store) returns (out: Option<TxOut>)
      requires Owned() && op.txid in cache
      modifies Repr
      ensures Owned() && Repr == old(Repr) && cache == old(cache) && contents == after
      ensures out == SlotIn(old(Slots()), op)
      ensures Slots() == old(Slots())[op.txid := WithoutSlot(old(Slots())[op.txid], op.vout)]
    {
      hide VecMap.Counted, VecMap.VecMap.Valid;
      var v := cache[op.txid];
      assert Slots()[op.txid] == v.inner[..];
      out := v.Remove(op.vout);
      contents := after;
    }

    /** Takes the output at `op` out of its array. */
    method TakeSlot(op: OutPoint) returns (out: Option<TxOut>)
      requires Valid() && op.txid in cache
      modifies Repr
      ensures Valid() && Repr == old(Repr) && cache == old(cache)
      ensures out == SlotIn(old(Slots()), op)
      ensures contents == Remove(old(contents), [op])
    {
      WithoutSlotShows(Slots(), contents, op);
      hide Owned, Shows, Remove;
      out := RemoveSlot(op, Remove(contents, [op]));
    }

    method ConnectOutpoints(block: Block) returns (r: Option<ConnectedBlock>)
      requires Valid()
      modifies Repr
      ensures Valid() && Repr == old(Repr)
      ensures Outcome(r, contents) == ConnectOneByOne(old(contents), block)
    {
      var txs, i := block.txdata, 0;
      var done: seq<ConnectedTx> := [];
      ghost var taking := Taking(contents, [], true);
      while i < |txs|
        invariant 0 <= i <= |txs|
        invariant Valid() && Repr == old(Repr)
        invariant taking == TakeAll(old(contents), Spends(txs[..i])) && taking.ok && contents == taking.store
        invariant done == Assemble(txs[..i], taking.taken)
      {
        SpendsStep(txs, i);
        var input := ConnectInputs(txs[i].inputs, old(contents), Spends(txs[..i]));
        SpendsPrefix(txs, i + 1);
        if input.None? {
          assert Spends(txs[..i + 1]) == Spends(txs)[..|Spends(txs[..i + 1])|];
          FailedTakingStays(old(contents), Spends(txs), |Spends(txs[..i + 1])|);
          return None;
        }
        ghost var next := TakeAll(old(contents), Spends(txs[..i + 1]));
        AssembleStep(txs, i, next.taken, |Spends(txs[..i])|);
        taking := next;
        done := done + [ConnectedTx(txs[i].txid, input.value, txs[i].outputs)];
        i := i + 1;
      }
      assert txs[..i] == txs;
      r := Some(ConnectedBlock(block.header, done));
    }

    /** The inputs of one transaction, after `before` was taken out of the store `base`. */
    method ConnectInputs(inputs: seq<OutPoint>, ghost base: Store, ghost before: seq<OutPoint>)
      returns (input: Option<seq<TxOut>>)
      requires Valid() && TakeAll(base, before).ok && contents == TakeAll(base, before).store
      modifies Repr
      ensures Valid() && Repr == old(Repr)
      ensures var t := TakeAll(base, before + NonNull(inputs));
        && contents == t.store
        && (input.Some? <==> t.ok)
        && (input.Some? ==> t.taken == TakeAll(base, before).taken + input.value)
    {
      hide Shows, Remove, TakeAll, VecMap.Counted;
      var found: seq<TxOut> := [];
      var j := 0;
      assert before + NonNull(inputs[..0]) == before;
      while j < |inputs|
        invariant 0 <= j <= |inputs|
        invariant Valid() && Repr == old(Repr)
        invariant TakeAll(base, before + NonNull(inputs[..j]))
          == Taking(contents, TakeAll(base, before).taken + found, true)
      {
        InputStep(base, before, inputs, j);
        if !inputs[j].IsNull() {
          var out := TakeOutput(inputs[j]);
          if out.None? {
            FailedInputs(base, before, inputs, j + 1);
            return None;
          }
          assert TakeAll(base, before).taken + (found + [out.value])
            == TakeAll(base, before).taken + found + [out.value];
          found := found + [out.value];
        }
        j := j + 1;
      }
      assert inputs[..j] == inputs;
      input := Some(found);
    }
  }

  lemma TakeAllStep(base: Store, ops: seq<OutPoint>, op: OutPoint)
    ensures TakeAll(base, ops + [op]) == Take(TakeAll(base, ops), op)
  {
    assert (ops + [op])[..|ops|] == ops;
  }

  lemma InputStep(base: Store, before: seq<OutPoint>, inputs: seq<OutPoint>, j: nat)
    requires j < |inputs|
    ensures var t := TakeAll(base, before + NonNull(inputs[..j]));
      TakeAll(base, before + NonNull(inputs[..j + 1])) == if inputs[j].IsNull() then t else Take(t, inputs[j])
  {
    hide TakeAll, Take;
    NonNullStep(inputs, j);
    if !inputs[j].IsNull() {
      TakeAllStep(base, before + NonNull(inputs[..j]), inputs[j]);
      assert before + NonNull(inputs[..j]) + [inputs[j]] == before + (NonNull(inputs[..j]) + [inputs[j]]);
    } else {
      assert NonNull(inputs[..j]) + [] == NonNull(inputs[..j]);
    }
  }

  lemma FailedInputs(base: Store, before: seq<OutPoint>, inputs: seq<OutPoint>, j: nat)
    requires j <= |inputs| && !TakeAll(base, before + NonNull(inputs[..j])).ok
    ensures TakeAll(base, before + NonNull(inputs)) == TakeAll(base, before + NonNull(inputs[..j]))
  {
    NonNullPrefix(inputs, j);
    var ops, n := before + NonNull(inputs), |before| + |NonNull(inputs[..j])|;
    assert ops[..n] == before + NonNull(inputs[..j]);
    FailedTakingStays(base, ops, n);
  }
}
