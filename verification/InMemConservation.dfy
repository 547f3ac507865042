/** The conservation laws of the pipeline, for the slot arrays of the in-memory store. */
module InMemConservation {
  import opened Wrappers
  import opened Chain
  import opened FlatStore
  import C = Conservation
  import P = Pipeline
  import opened InMemPipeline
  import InMemRuns

  /** Everything the first stage has put into slots for heights below n. */
  function StoredOutputs(chain: seq<Block>, s: State, n: nat): Store
    requires |s.jobs| == |chain| && n <= |chain|
  {
    if n == 0 then map[]
    else
      var before := StoredOutputs(chain, s, n - 1);
      if HasStored(s, n - 1) then before + Created(chain, n - 1) else before
  }

  /** The outputs a job has taken out of slots; one that must drop a key has its last in hand. */
  function HeldByJob(j: Job): seq<TxOut> {
    match j
    case Connecting(taken, MustDrop(_, Some(o))) => taken + [o]
    case Connecting(taken, _) => taken
    case Connected(b) => C.InputsOf(b.txdata)
    case _ => []
  }

  function HeldOutputs(s: State, n: nat): seq<TxOut>
    requires n <= |s.jobs|
  {
    if n == 0 then [] else HeldOutputs(s, n - 1) + HeldByJob(s.jobs[n - 1])
  }

  /** How many inputs of its block a job has taken the outputs of. */
  function TakenByJob(j: Job, inputs: nat): nat {
    match j
    case Connecting(taken, MustDrop(_, Some(_))) => |taken| + 1
    case Connecting(taken, _) => |taken|
    case Connected(_) => inputs
    case Rejected(n) => n
    case _ => 0
  }

  function TakenOutpoints(chain: seq<Block>, s: State, n: nat): seq<OutPoint>
    requires |s.jobs| == |chain| && n <= |chain|
  {
    if n == 0 then []
    else
      TakenOutpoints(chain, s, n - 1)
      + C.FirstOf(Spent(chain, n - 1), TakenByJob(s.jobs[n - 1], |Spent(chain, n - 1)|))
  }

  // ---------- the same, seen from the flat pipeline ----------

  lemma FoundSomes(taken: seq<TxOut>)
    ensures Found(Somes(taken)) == taken
  {
    C.FoundAll(Somes(taken));
    assert Values(Somes(taken)) == taken;
  }

  lemma HeldIsAttached(j: Job)
    ensures HeldByJob(j) == C.AttachedByJob(FlatJob(j))
  {
    match j
    case Connecting(taken, MustDrop(_, Some(o))) =>
      var all := Somes(taken) + [Some(o)];
      assert Somes(taken + [o]) == all && all[..|taken| + 1] == all;
      FoundSomes(taken + [o]);
    case Connecting(taken, MustDrop(_, None)) =>
      assert (Somes(taken) + [None])[..|taken|] == Somes(taken);
      FoundSomes(taken);
    case Connecting(taken, _) =>
      assert Somes(taken)[..|taken|] == Somes(taken);
      FoundSomes(taken);
    case _ =>
  }

  lemma JobLooksFlat(chain: seq<Block>, s: State, p: P.State, h: nat)
    requires p.jobs == FlatJobs(s.jobs) && |s.jobs| == |chain| && h < |chain|
    ensures HasStored(s, h) == P.HasStored(p, h)
    ensures TakenByJob(s.jobs[h], |Spent(chain, h)|) == P.Removed(chain, p, h)
    ensures HeldByJob(s.jobs[h]) == C.AttachedByJob(p.jobs[h])
  {
    hide Spent, HeldByJob;
    assert p.jobs[h] == FlatJob(s.jobs[h]);
    HeldIsAttached(s.jobs[h]);
  }

  lemma {:induction false} LooksFlat(chain: seq<Block>, s: State, p: P.State, n: nat)
    requires p.jobs == FlatJobs(s.jobs) && |s.jobs| == |chain| && n <= |chain|
    ensures StoredOutputs(chain, s, n) == C.InsertedOutputs(chain, p, n)
    ensures HeldOutputs(s, n) == C.AttachedOutputs(p, n)
    ensures TakenOutpoints(chain, s, n) == C.TakenOutpoints(chain, p, n)
  {
    hide Spent, HeldByJob, HasStored, TakenByJob, P.HasStored, P.Removed, C.AttachedByJob, C.FirstOf, FlatJob;
    if n == 0 {
    } else {
      LooksFlat(chain, s, p, n - 1);
      JobLooksFlat(chain, s, p, n - 1);
    }
  }

  // ---------- the laws ----------

  /** In every reachable state, `store` being what the slots hold: the outputs put into slots are
      those still there and those taken, each once and in order; and the value put in is the
      value left plus the value taken. */
  lemma SlotsAreConserved(chain: seq<Block>, s: State) returns (store: Store)
    requires ValidChain(chain) && Reachable(chain, s)
    ensures |s.jobs| == |chain|
    ensures forall op :: StoreMatches(s, store, op)
    ensures var inserted, taken := StoredOutputs(chain, s, |chain|), TakenOutpoints(chain, s, |chain|);
      && Distinct(taken) && (forall op :: op in taken ==> op in inserted)
      && store == Remove(inserted, taken)
      && HeldOutputs(s, |chain|) == Map(taken, Origin(chain))
      && C.Total(inserted) == C.Total(store) + C.SumOf(HeldOutputs(s, |chain|))
  {
    var p := InMemRuns.ReachableImplements(chain, s);
    C.OutputsAreConserved(chain, p);
    LooksFlat(chain, s, p, |chain|);
    store := p.store;
    hide ValidChain, Reachable, P.Reachable, Inv, StoreMatches, Origin, Remove, C.Total, C.SumOf, Distinct;
  }

  /** When every block is emitted, the slots and the emitted inputs together hold exactly the
      value of all outputs of the chain. */
  lemma SlotsBalanceAtTheEnd(chain: seq<Block>, s: State) returns (store: Store)
    requires ValidChain(chain) && Reachable(chain, s) && |s.emitted| == |chain|
    ensures forall op :: StoreMatches(s, store, op)
    ensures C.Total(AllOutputs(chain)) == C.Total(store) + C.SumOf(C.EmittedInputs(s.emitted))
  {
    var p := InMemRuns.ReachableImplements(chain, s);
    C.FinalBalance(chain, p);
    store := p.store;
  }
}
