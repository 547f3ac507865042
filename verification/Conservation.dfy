/** Outputs are neither lost nor attached twice, in any state of any run of the pipeline. */
module Conservation {
  import opened Wrappers
  import opened Chain
  import opened FlatStore
  import opened Pipeline

  // ---------- value in a store and in a list ----------

  ghost function PickKey(m: Store): (op: OutPoint)
    requires m != map[]
    ensures op in m
  {
    var op :| op in m;
    op
  }

  /** The value of all outputs of a store. */
  ghost function Total(m: Store): nat
    decreases |m|
  {
    if m == map[] then 0
    else
      var op := PickKey(m);
      RemovalShrinks(m, op);
      m[op].value + Total(Remove(m, [op]))
  }

  lemma RemovalShrinks(m: Store, op: OutPoint)
    requires op in m
    ensures |Remove(m, [op])| == |m| - 1
  {
    var smaller := Remove(m, [op]);
    assert smaller.Keys == m.Keys - {op};
    assert |smaller| == |smaller.Keys| && |m| == |m.Keys|;
  }

  function SumOf(outs: seq<TxOut>): nat {
    if outs == [] then 0 else SumOf(outs[..|outs| - 1]) + outs[|outs| - 1].value
  }

  lemma {:induction false} TotalWithout(m: Store, op: OutPoint)
    requires op in m
    ensures Total(m) == m[op].value + Total(Remove(m, [op]))
    decreases |m|
  {
    var pick := PickKey(m);
    if op != pick {
      RemovalShrinks(m, pick);
      RemovalShrinks(m, op);
      TotalWithout(Remove(m, [pick]), op);
      TotalWithout(Remove(m, [op]), pick);
      assert Remove(Remove(m, [pick]), [op]) == Remove(Remove(m, [op]), [pick]);
    }
  }

  lemma {:induction false} TotalSplits(m: Store, ops: seq<OutPoint>, origin: OutPoint -> TxOut)
    requires Distinct(ops) && forall op :: op in ops ==> op in m
    requires forall op :: op in m ==> m[op] == origin(op)
    ensures Total(m) == Total(Remove(m, ops)) + SumOf(Map(ops, origin))
  {
    if ops == [] {
      assert Remove(m, ops) == m;
    } else {
      var before, last := ops[..|ops| - 1], ops[|ops| - 1];
      assert ops == before + [last];
      assert last !in before;
      TotalSplits(m, before, origin);
      TotalWithout(Remove(m, before), last);
      assert Remove(Remove(m, before), [last]) == Remove(m, ops);
      MapOfConcat(before, [last], origin);
      assert Map(ops, origin)[..|before|] == Map(before, origin);
    }
  }

  // ---------- what a state has inserted, taken and attached ----------

  /** Everything the first stage has written for heights below n. */
  function InsertedOutputs(chain: seq<Block>, s: State, n: nat): Store
    requires |s.jobs| == |chain| && n <= |chain|
  {
    if n == 0 then map[]
    else
      var before := InsertedOutputs(chain, s, n - 1);
      if HasStored(s, n - 1) then before + Created(chain, n - 1) else before
  }

  function FirstOf<T>(s: seq<T>, n: nat): seq<T> {
    if n <= |s| then s[..n] else s
  }

  /** The outpoints that second-stage workers below height n have deleted, in block order. */
  function TakenOutpoints(chain: seq<Block>, s: State, n: nat): seq<OutPoint>
    requires |s.jobs| == |chain| && n <= |chain|
  {
    if n == 0 then []
    else TakenOutpoints(chain, s, n - 1) + FirstOf(Spent(chain, n - 1), Removed(chain, s, n - 1))
  }

  function InputsOf(txs: seq<ConnectedTx>): seq<TxOut> {
    if txs == [] then [] else InputsOf(txs[..|txs| - 1]) + txs[|txs| - 1].input
  }

  /** What a job has attached: the answers whose keys it deleted, or its block's inputs. */
  function AttachedByJob(j: Job): seq<TxOut> {
    match j
    case Connecting(answers, removed) => Found(FirstOf(answers, removed))
    case Connected(b) => InputsOf(b.txdata)
    case _ => []
  }

  function AttachedOutputs(s: State, n: nat): seq<TxOut>
    requires n <= |s.jobs|
  {
    if n == 0 then [] else AttachedOutputs(s, n - 1) + AttachedByJob(s.jobs[n - 1])
  }

  lemma {:induction false} InsertedMeaning(chain: seq<Block>, s: State, n: nat, op: OutPoint)
    requires UniqueTxids(chain) && |s.jobs| == |chain| && n <= |chain|
    ensures op in InsertedOutputs(chain, s, n)
       <==> exists h :: 0 <= h < n && HasStored(s, h) && op in Created(chain, h)
    ensures op in InsertedOutputs(chain, s, n) ==> InsertedOutputs(chain, s, n)[op] == Origin(chain)(op)
  {
    hide Created, UniqueTxids, HasStored;
    if n == 0 {
    } else {
      InsertedMeaning(chain, s, n - 1, op);
      if op in Created(chain, n - 1) {
        CreatedValue(chain, n - 1, op);
      }
    }
  }

  ghost predicate TakenBelow(chain: seq<Block>, s: State, n: nat, op: OutPoint)
    requires |s.jobs| == |chain| && n <= |chain|
  {
    exists h, i :: 0 <= h < n && 0 <= i < Removed(chain, s, h) && i < |Spent(chain, h)| && Spent(chain, h)[i] == op
  }

  lemma {:induction false} TakenMeaning(chain: seq<Block>, s: State, n: nat, op: OutPoint)
    requires |s.jobs| == |chain| && n <= |chain|
    ensures op in TakenOutpoints(chain, s, n) <==> TakenBelow(chain, s, n, op)
  {
    hide Spent, Removed;
    if n == 0 {
    } else {
      TakenMeaning(chain, s, n - 1, op);
      var more := FirstOf(Spent(chain, n - 1), Removed(chain, s, n - 1));
      if op in more {
        var i :| 0 <= i < |more| && more[i] == op;
        assert Spent(chain, n - 1)[i] == op;
      }
      if TakenBelow(chain, s, n, op) && !TakenBelow(chain, s, n - 1, op) {
        var i :| 0 <= i < Removed(chain, s, n - 1) && i < |Spent(chain, n - 1)| && Spent(chain, n - 1)[i] == op;
        assert more[i] == op;
      }
    }
  }

  lemma NotTakenBelow(chain: seq<Block>, s: State, n: nat, j: nat)
    requires NoDoubleSpend(chain) && |s.jobs| == |chain| && n < |chain| && j < |Spent(chain, n)|
    ensures !TakenBelow(chain, s, n, Spent(chain, n)[j])
  {
  }

  lemma SpentOnceInBlock(chain: seq<Block>, h: nat, n: nat)
    requires NoDoubleSpend(chain) && h < |chain|
    ensures Distinct(FirstOf(Spent(chain, h), n))
  {
  }

  lemma {:induction false} TakenDistinct(chain: seq<Block>, s: State, n: nat)
    requires NoDoubleSpend(chain) && |s.jobs| == |chain| && n <= |chain|
    ensures Distinct(TakenOutpoints(chain, s, n))
  {
    hide Spent, Removed, NoDoubleSpend, TakenBelow;
    if n == 0 {
    } else {
      TakenDistinct(chain, s, n - 1);
      var before, more := TakenOutpoints(chain, s, n - 1), FirstOf(Spent(chain, n - 1), Removed(chain, s, n - 1));
      forall i, j | 0 <= i < |before| && 0 <= j < |more|
        ensures before[i] != more[j]
      {
        TakenMeaning(chain, s, n - 1, before[i]);
        assert more[j] == Spent(chain, n - 1)[j];
        NotTakenBelow(chain, s, n - 1, j);
      }
      SpentOnceInBlock(chain, n - 1, Removed(chain, s, n - 1));
    }
  }

  lemma {:induction false} FoundAll(answers: seq<Option<TxOut>>)
    requires AllFound(answers)
    ensures Found(answers) == Values(answers)
  {
    if answers == [] {
    } else {
      FoundAll(answers[..|answers| - 1]);
      assert Values(answers) == Values(answers[..|answers| - 1]) + [answers[|answers| - 1].value];
    }
  }

  lemma {:induction false} InputsOfConnected(txs: seq<Tx>, origin: OutPoint -> TxOut)
    ensures InputsOf(ConnectAll(txs, origin)) == Map(Spends(txs), origin)
  {
    if txs == [] {
    } else {
      var before, last := txs[..|txs| - 1], txs[|txs| - 1];
      InputsOfConnected(before, origin);
      MapOfConcat(Spends(before), NonNull(last.inputs), origin);
      assert ConnectAll(txs, origin)[..|before|] == ConnectAll(before, origin);
    }
  }

  lemma JobAttachesItsInputs(chain: seq<Block>, s: State, h: nat)
    requires ValidChain(chain) && Inv(chain, s) && h < |chain|
    ensures AttachedByJob(s.jobs[h]) == Map(FirstOf(Spent(chain, h), Removed(chain, s, h)), Origin(chain))
  {
    assert JobIsSound(chain, s, h);
    hide ValidChain, Inv, Spent, Origin;
    match s.jobs[h] {
      case Connecting(answers, removed) =>
        AnswersAttach(chain, h, answers, removed);
      case Connected(b) =>
        ConnectedAttaches(chain, h);
      case _ =>
    }
  }

  lemma AnswersAttach(chain: seq<Block>, h: nat, answers: seq<Option<TxOut>>, removed: nat)
    requires h < |chain| && AnswersAreOrigins(chain, h, answers) && removed <= |answers|
    ensures Found(FirstOf(answers, removed)) == Map(FirstOf(Spent(chain, h), removed), Origin(chain))
  {
    hide Spent, Origin;
    FoundAll(answers[..removed]);
    assert Values(answers[..removed]) == Map(Spent(chain, h)[..removed], Origin(chain));
  }

  lemma ConnectedAttaches(chain: seq<Block>, h: nat)
    requires ValidChain(chain) && h < |chain|
    ensures SequentialBlock(chain, h).Some?
    ensures InputsOf(SequentialBlock(chain, h).value.txdata) == Map(Spent(chain, h), Origin(chain))
  {
    SequentialBlockConnects(chain, h);
    InputsOfConnected(chain[h].txdata, Origin(chain));
    hide ValidChain, SequentialBlock, InputsOf, Origin;
  }

  lemma MapOfNothing(origin: OutPoint -> TxOut)
    ensures Map([], origin) == []
  {
  }

  lemma {:induction false} AttachedAreTaken(chain: seq<Block>, s: State, n: nat)
    requires ValidChain(chain) && WellFormed(chain, s) && Inv(chain, s) && n <= |chain|
    ensures AttachedOutputs(s, n) == Map(TakenOutpoints(chain, s, n), Origin(chain))
  {
    hide Map, Spent, Removed, AttachedByJob, FirstOf, Inv, ValidChain, Origin;
    if n == 0 {
      MapOfNothing(Origin(chain));
    } else {
      AttachedAreTaken(chain, s, n - 1);
      JobAttachesItsInputs(chain, s, n - 1);
      MapOfConcat(TakenOutpoints(chain, s, n - 1), FirstOf(Spent(chain, n - 1), Removed(chain, s, n - 1)), Origin(chain));
    }
  }

  lemma TakenWasInserted(chain: seq<Block>, s: State, op: OutPoint)
    requires ValidChain(chain) && Inv(chain, s) && Taken(chain, s, op)
    ensures Inserted(chain, s, op)
  {
    var h, i :| 0 <= h < |chain| && 0 <= i < Removed(chain, s, h) && i < |Spent(chain, h)| && Spent(chain, h)[i] == op;
    assert JobIsSound(chain, s, h);
    assert CreatedUpTo(chain, h, op);
    var k :| 0 <= k <= h && op in Created(chain, k);
    assert JobIsSound(chain, s, k);
  }

  // ---------- the conservation laws ----------

  /** The inserted outputs are, at every moment, those in the store and those attached, each
      once; and the value created is the value unspent plus the value attached. */
  lemma OutputsAreConserved(chain: seq<Block>, s: State)
    requires ValidChain(chain) && Reachable(chain, s)
    ensures |s.jobs| == |chain|
    ensures var inserted, taken := InsertedOutputs(chain, s, |chain|), TakenOutpoints(chain, s, |chain|);
      && Distinct(taken) && (forall op :: op in taken ==> op in inserted)
      && s.store == Remove(inserted, taken)
      && AttachedOutputs(s, |chain|) == Map(taken, Origin(chain))
      && Total(inserted) == Total(s.store) + SumOf(AttachedOutputs(s, |chain|))
  {
    ReachableInv(chain, s);
    assert NoDoubleSpend(chain) && WellFormed(chain, s) && |s.jobs| == |chain|;
    hide *;
    var inserted, taken := InsertedOutputs(chain, s, |chain|), TakenOutpoints(chain, s, |chain|);
    TakenDistinct(chain, s, |chain|);
    AttachedAreTaken(chain, s, |chain|);
    forall op ensures IsSplit(inserted, taken, s.store, Origin(chain), op) {
      OutpointIsAccounted(chain, s, op);
    }
    SplitBalances(inserted, taken, s.store, Origin(chain));
  }

  /** At `op`, `left` is what of `all` was not taken, and nothing was taken that is not in `all`. */
  ghost predicate IsSplit(all: Store, taken: seq<OutPoint>, left: Store, origin: OutPoint -> TxOut, op: OutPoint) {
    && (op in taken ==> op in all)
    && (op in left <==> op in all && op !in taken)
    && (op in all ==> all[op] == origin(op))
    && (op in left ==> left[op] == origin(op))
  }

  lemma SplitBalances(all: Store, taken: seq<OutPoint>, left: Store, origin: OutPoint -> TxOut)
    requires Distinct(taken) && forall op :: IsSplit(all, taken, left, origin, op)
    ensures forall op :: op in taken ==> op in all
    ensures left == Remove(all, taken)
    ensures Total(all) == Total(left) + SumOf(Map(taken, origin))
  {
    hide Total, SumOf, Map, Distinct;
    forall op
      ensures (op in taken ==> op in all) && (op in left <==> op in all && op !in taken)
      ensures (op in all ==> all[op] == origin(op)) && (op in left ==> left[op] == origin(op))
    {
      assert IsSplit(all, taken, left, origin, op);
    }
    assert left == Remove(all, taken);
    TotalSplits(all, taken, origin);
  }

  lemma OutpointIsAccounted(chain: seq<Block>, s: State, op: OutPoint)
    requires ValidChain(chain) && Inv(chain, s)
    ensures IsSplit(InsertedOutputs(chain, s, |chain|), TakenOutpoints(chain, s, |chain|), s.store, Origin(chain), op)
  {
    InsertedMeaning(chain, s, |chain|, op);
    TakenMeaning(chain, s, |chain|, op);
    assert TakenBelow(chain, s, |chain|, op) <==> Taken(chain, s, op);
    assert StoreIsAccounted(chain, s, op);
    if Taken(chain, s, op) {
      TakenWasInserted(chain, s, op);
    }
  }

  /** When every block is emitted, the emitted inputs and the remaining store together hold
      exactly the value of all outputs of the chain. */
  lemma FinalBalance(chain: seq<Block>, s: State)
    requires ValidChain(chain) && Reachable(chain, s) && |s.emitted| == |chain|
    ensures Total(AllOutputs(chain)) == Total(s.store) + SumOf(EmittedInputs(s.emitted))
  {
    hide Reachable, Inv, ValidChain, AllOutputs, Total, SumOf, Remove, Origin, InsertedOutputs, TakenOutpoints, AttachedOutputs, EmittedInputs;
    ReachableInv(chain, s);
    OutputsAreConserved(chain, s);
    AllInserted(chain, s, |chain|);
    assert chain[..|chain|] == chain;
    EmittedAttached(chain, s, |chain|);
    assert s.emitted[..|chain|] == s.emitted;
  }

  function EmittedInputs(blocks: seq<ConnectedBlock>): seq<TxOut> {
    if blocks == [] then [] else EmittedInputs(blocks[..|blocks| - 1]) + InputsOf(blocks[|blocks| - 1].txdata)
  }

  lemma {:induction false} AllInserted(chain: seq<Block>, s: State, n: nat)
    requires Inv(chain, s) && WellFormed(chain, s) && |s.emitted| == |chain| && n <= |chain|
    ensures InsertedOutputs(chain, s, n) == AllOutputs(chain[..n])
  {
    if n == 0 {
    } else {
      AllInserted(chain, s, n - 1);
      assert chain[..n][..n - 1] == chain[..n - 1];
      assert s.jobs[n - 1].Connected?;
    }
  }

  lemma {:induction false} EmittedAttached(chain: seq<Block>, s: State, n: nat)
    requires Inv(chain, s) && WellFormed(chain, s) && |s.emitted| == |chain| && n <= |chain|
    ensures AttachedOutputs(s, n) == EmittedInputs(s.emitted[..n])
  {
    if n == 0 {
    } else {
      EmittedAttached(chain, s, n - 1);
      assert s.emitted[..n][..n - 1] == s.emitted[..n - 1];
      EmittedJobAt(chain, s, n - 1);
      hide Inv, InputsOf;
    }
  }
}
