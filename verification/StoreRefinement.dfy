/**
 The two unspent stores run side by side over a whole chain.

 `OnDiskUtxo.OnDiskStore` inserts with `Insert` and connects with `ConnectBatch`;
 `InMemUtxo.InMemStore` inserts with `ReplaceTxs` and connects with `ConnectOneByOne`.
 */
module StoreRefinement {
  import opened Chain
  import opened FlatStore
  import opened InMemUtxo

  /** The contents of the in-memory store after blocks 0 .. h-1. */
  function InMemSequentialStore(chain: seq<Block>, h: nat): Store
    requires h <= |chain|
  {
    if h == 0 then map[] else InMemStep(InMemSequentialStore(chain, h - 1), chain[h - 1]).store
  }

  function InMemStep(store: Store, b: Block): Outcome {
    ConnectOneByOne(ReplaceTxs(store, b.txdata), b)
  }

  /** What an earlier block created has none of this block's txids. */
  lemma StoredTxidIsOld(chain: seq<Block>, h: nat, op: OutPoint, j: nat)
    requires UniqueTxids(chain) && h < |chain| && j < |chain[h].txdata| && CreatedBefore(chain, h, op)
    ensures op.txid != chain[h].txdata[j].txid
  {
    var k :| 0 <= k < h && op in Created(chain, k);
    OutputsKeys(chain[k].txdata, op);
  }

  lemma ReplacingIsInserting(chain: seq<Block>, h: nat)
    requires ValidChain(chain) && h < |chain|
    ensures ReplaceTxs(SequentialStore(chain, h), chain[h].txdata) == Insert(SequentialStore(chain, h), chain[h])
  {
    SequentialStoreHoldsUnspent(chain, h);
    BlockTxidsDistinct(chain, h);
    var store := SequentialStore(chain, h);
    hide SequentialStore, ReplaceTxs, CreatedBefore, SpentBefore, UniqueTxids, NoDoubleSpend, NoDanglingInput;
    forall op, j | op in store && 0 <= j < |chain[h].txdata| ensures op.txid != chain[h].txdata[j].txid {
      assert HeldIffUnspent(chain, h, store, op);
      StoredTxidIsOld(chain, h, op, j);
    }
    ReplaceIsInsert(store, chain[h].txdata);
  }

  lemma SpendsAreDistinct(chain: seq<Block>, h: nat)
    requires NoDoubleSpend(chain) && h < |chain|
    ensures Distinct(Spent(chain, h))
  {
  }

  lemma StepsAgree(chain: seq<Block>, h: nat)
    requires ValidChain(chain) && h < |chain|
    ensures var store, b := SequentialStore(chain, h), chain[h];
      InMemStep(store, b).result == SequentialBlock(chain, h) && InMemStep(store, b).store == SequentialStore(chain, h + 1)
  {
    ReplacingIsInserting(chain, h);
    SpendsAreDistinct(chain, h);
    SequentialBlockConnects(chain, h);
    OrdersAgreeIff(chain[h]);
    assert SameOutcome(Insert(SequentialStore(chain, h), chain[h]), chain[h]);
    hide ValidChain, ConnectBatch, ConnectOneByOne, ReplaceTxs, Insert, ConnectAll, Distinct;
  }

  /** On a valid chain the in-memory version, run block by block, gives at every height the
      connected block of the on-disk version, and leaves the same outputs unspent. */
  lemma {:induction false} StoresAgreeOnEveryBlock(chain: seq<Block>, h: nat)
    requires ValidChain(chain) && h < |chain|
    ensures InMemSequentialStore(chain, h) == SequentialStore(chain, h)
    ensures InMemStep(InMemSequentialStore(chain, h), chain[h]).result == SequentialBlock(chain, h)
    ensures InMemSequentialStore(chain, h + 1) == SequentialStore(chain, h + 1)
  {
    hide ValidChain, ConnectBatch, InMemStep, Insert;
    if h == 0 {
    } else {
      StoresAgreeOnEveryBlock(chain, h - 1);
    }
    StepsAgree(chain, h);
  }
}
