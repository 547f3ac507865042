/**
 The two versions of `connect_outpoints`, run without interruption, are two schedules of one
 pipeline worker: all reads before all deletes, or a read and a delete at every input.
 */
module Schedules {
  import opened Wrappers
  import opened Chain
  import opened FlatStore
  import opened Pipeline

  /** The state with the job of height h and the store replaced. */
  function With(s: State, h: nat, j: Job, store: Store): State
    requires h < |s.jobs|
  {
    s.(jobs := s.jobs[h := j], store := store)
  }

  predicate JustHandedOver(chain: seq<Block>, s: State, h: nat) {
    WellFormed(chain, s) && h < |chain| && s.jobs[h] == Connecting([], 0)
  }

  lemma RunOneMore(chain: seq<Block>, s: State, es: seq<Event>, e: Event)
    requires WellFormed(chain, s) && Run(chain, s, es).Some? && Enabled(chain, Run(chain, s, es).value, e)
    ensures Run(chain, s, es + [e]) == Some(Apply(chain, Run(chain, s, es).value, e))
  {
    hide Enabled, Apply;
    assert (es + [e])[..|es|] == es;
  }

  lemma WithSame(s: State, h: nat)
    requires h < |s.jobs|
    ensures With(s, h, s.jobs[h], s.store) == s
  {
  }

  lemma WithAgain(s: State, h: nat, j: Job, store: Store, k: Job, after: Store)
    requires h < |s.jobs|
    ensures With(With(s, h, j, store), h, k, after) == With(s, h, k, after)
  {
    assert s.jobs[h := j][h := k] == s.jobs[h := k];
  }

  /** One event of the worker of height h, when it alone has moved since `s`. */
  lemma WorkerStep(chain: seq<Block>, s: State, h: nat, es: seq<Event>, j: Job, store: Store, e: Event, k: Job, after: Store)
    requires WellFormed(chain, s) && h < |chain| && Run(chain, s, es) == Some(With(s, h, j, store))
    requires Enabled(chain, With(s, h, j, store), e)
    requires Apply(chain, With(s, h, j, store), e) == With(With(s, h, j, store), h, k, after)
    ensures Run(chain, s, es + [e]) == Some(With(s, h, k, after))
  {
    hide Enabled, Apply, With;
    RunOneMore(chain, s, es, e);
    WithAgain(s, h, j, store, k, after);
  }

  lemma ReadStep(chain: seq<Block>, s: State, h: nat, es: seq<Event>, answers: seq<Option<TxOut>>, removed: nat, store: Store)
    requires WellFormed(chain, s) && h < |chain|
    requires Run(chain, s, es) == Some(With(s, h, Connecting(answers, removed), store))
    requires |answers| < |Spent(chain, h)|
    ensures Run(chain, s, es + [Read(h)])
         == Some(With(s, h, Connecting(answers + [Lookup(store, Spent(chain, h)[|answers|])], removed), store))
  {
    hide Run, Lookup, Spent;
    WorkerStep(chain, s, h, es, Connecting(answers, removed), store, Read(h),
               Connecting(answers + [Lookup(store, Spent(chain, h)[|answers|])], removed), store);
  }

  lemma DeleteStep(chain: seq<Block>, s: State, h: nat, es: seq<Event>, answers: seq<Option<TxOut>>, removed: nat, store: Store)
    requires WellFormed(chain, s) && h < |chain|
    requires Run(chain, s, es) == Some(With(s, h, Connecting(answers, removed), store))
    requires removed < |answers| <= |Spent(chain, h)|
    ensures Run(chain, s, es + [Delete(h)])
         == Some(With(s, h, Connecting(answers, removed + 1), Remove(store, [Spent(chain, h)[removed]])))
  {
    hide Run, Remove, Spent;
    WorkerStep(chain, s, h, es, Connecting(answers, removed), store, Delete(h),
               Connecting(answers, removed + 1), Remove(store, [Spent(chain, h)[removed]]));
  }

  lemma FinishStep(chain: seq<Block>, s: State, h: nat, es: seq<Event>, answers: seq<Option<TxOut>>, removed: nat, store: Store)
    requires WellFormed(chain, s) && h < |chain|
    requires Run(chain, s, es) == Some(With(s, h, Connecting(answers, removed), store))
    requires !AllFound(answers) || |answers| == removed == |Spent(chain, h)|
    ensures Run(chain, s, es + [Finish(h)]) == Some(With(s, h,
      if AllFound(answers) then Connected(Attach(chain[h], answers).value) else Rejected(removed), store))
  {
    hide Run, AllFound, Assemble;
    WorkerStep(chain, s, h, es, Connecting(answers, removed), store, Finish(h),
               if AllFound(answers) then Connected(Attach(chain[h], answers).value) else Rejected(removed), store);
  }

  // ---------- all reads, then all deletes ----------

  lemma ReadFirst(chain: seq<Block>, s: State, h: nat, n: nat) returns (es: seq<Event>)
    requires JustHandedOver(chain, s, h) && n <= |Spent(chain, h)|
    ensures Run(chain, s, es) == Some(With(s, h, Connecting(Answers(s.store, Spent(chain, h)[..n]), 0), s.store))
  {
    hide Spent, Run;
    var ops := Spent(chain, h);
    if n == 0 {
      es := [];
      RunNothing(chain, s);
      WithSame(s, h);
      assert Answers(s.store, ops[..0]) == [];
    } else {
      var before := ReadFirst(chain, s, h, n - 1);
      ReadStep(chain, s, h, before, Answers(s.store, ops[..n - 1]), 0, s.store);
      es := before + [Read(h)];
      assert Answers(s.store, ops[..n]) == Answers(s.store, ops[..n - 1]) + [Lookup(s.store, ops[n - 1])];
    }
  }

  lemma RunNothing(chain: seq<Block>, s: State)
    requires WellFormed(chain, s)
    ensures Run(chain, s, []) == Some(s)
  {
  }

  /** One more key deleted, when all answers are there. */
  lemma DeleteOneMore(chain: seq<Block>, s: State, h: nat, es: seq<Event>, k: nat)
    requires JustHandedOver(chain, s, h) && k < |Spent(chain, h)|
    requires Run(chain, s, es) ==
      Some(With(s, h, Connecting(Answers(s.store, Spent(chain, h)), k), Remove(s.store, Spent(chain, h)[..k])))
    ensures Run(chain, s, es + [Delete(h)]) ==
      Some(With(s, h, Connecting(Answers(s.store, Spent(chain, h)), k + 1), Remove(s.store, Spent(chain, h)[..k + 1])))
  {
    HandedOver(chain, s, h);
    hide *;
    DeleteStep(chain, s, h, es, Answers(s.store, Spent(chain, h)), k, Remove(s.store, Spent(chain, h)[..k]));
    RemoveStep(s.store, Spent(chain, h), k);
  }

  lemma DeleteFirst(chain: seq<Block>, s: State, h: nat, n: nat) returns (es: seq<Event>)
    requires JustHandedOver(chain, s, h) && n <= |Spent(chain, h)|
    ensures Run(chain, s, es) ==
      Some(With(s, h, Connecting(Answers(s.store, Spent(chain, h)), n), Remove(s.store, Spent(chain, h)[..n])))
  {
    HandedOver(chain, s, h);
    hide *;
    if n == 0 {
      es := ReadFirst(chain, s, h, |Spent(chain, h)|);
      TakeAllAndNone(Spent(chain, h));
      RemoveNothing(s.store);
    } else {
      var before := DeleteFirst(chain, s, h, n - 1);
      DeleteOneMore(chain, s, h, before, n - 1);
      es := before + [Delete(h)];
    }
  }

  lemma TakeAllAndNone(ops: seq<OutPoint>)
    ensures ops[..|ops|] == ops && ops[..0] == []
  {
  }

  lemma HandedOver(chain: seq<Block>, s: State, h: nat)
    requires JustHandedOver(chain, s, h)
    ensures WellFormed(chain, s) && h < |chain| == |s.jobs|
  {
  }

  /** What becomes of a worker: its block, or nothing. */
  function Ended(r: Option<ConnectedBlock>, removed: nat): Job {
    if r.Some? then Connected(r.value) else Rejected(removed)
  }

  /** From every state, an uninterrupted worker that reads all and deletes all ends with the
      result and the store of the on-disk version. */
  lemma BatchIsASchedule(chain: seq<Block>, s: State, h: nat) returns (es: seq<Event>)
    requires JustHandedOver(chain, s, h)
    ensures var o := ConnectBatch(s.store, chain[h]);
      Run(chain, s, es) == Some(With(s, h, Ended(o.result, |Spent(chain, h)|), o.store))
  {
    var ops := Spent(chain, h);
    var before := DeleteFirst(chain, s, h, |ops|);
    hide Run, Answers, Remove, With, Assemble;
    assert ops[..|ops|] == ops;
    FinishStep(chain, s, h, before, Answers(s.store, ops), |ops|, Remove(s.store, ops));
    es := before + [Finish(h)];
  }

  // ---------- a read and a delete at every input ----------

  /** One more output taken by the worker: a read and a delete. */
  lemma TakeStep(chain: seq<Block>, s: State, h: nat, es: seq<Event>, taken: seq<TxOut>, store: Store)
    requires JustHandedOver(chain, s, h) && |taken| < |Spent(chain, h)| && Spent(chain, h)[|taken|] in store
    requires Run(chain, s, es) == Some(With(s, h, Connecting(Somes(taken), |taken|), store))
    ensures var op := Spent(chain, h)[|taken|];
      Run(chain, s, es + [Read(h)] + [Delete(h)])
      == Some(With(s, h, Connecting(Somes(taken + [store[op]]), |taken| + 1), Remove(store, [op])))
  {
    var op := Spent(chain, h)[|taken|];
    HandedOver(chain, s, h);
    assert Lookup(store, op) == Some(store[op]);
    assert Somes(taken + [store[op]]) == Somes(taken) + [Some(store[op])];
    hide *;
    ReadStep(chain, s, h, es, Somes(taken), |taken|, store);
    DeleteStep(chain, s, h, es + [Read(h)], Somes(taken) + [Some(store[op])], |taken|, store);
  }

  lemma TakenOneMore(store: Store, ops: seq<OutPoint>, n: nat)
    requires 0 < n <= |ops| && TakeAll(store, ops[..n]).ok
    ensures var t := TakeAll(store, ops[..n - 1]);
      && t.ok && |t.taken| == n - 1 && ops[n - 1] in t.store
      && TakeAll(store, ops[..n])
         == Taking(Remove(t.store, [ops[n - 1]]), t.taken + [t.store[ops[n - 1]]], true)
  {
    assert ops[..n][..n - 1] == ops[..n - 1];
    hide Remove;
  }

  lemma TakeFirst(chain: seq<Block>, s: State, h: nat, n: nat) returns (es: seq<Event>)
    requires JustHandedOver(chain, s, h) && n <= |Spent(chain, h)|
    requires TakeAll(s.store, Spent(chain, h)[..n]).ok
    ensures var t := TakeAll(s.store, Spent(chain, h)[..n]);
      Run(chain, s, es) == Some(With(s, h, Connecting(Somes(t.taken), n), t.store))
  {
    var ops := Spent(chain, h);
    if n == 0 {
      hide Spent, Run, Remove, With;
      es := [];
      RunNothing(chain, s);
      WithSame(s, h);
      assert Somes<TxOut>([]) == [];
    } else {
      hide *;
      TakenOneMore(s.store, ops, n);
      var before := TakeFirst(chain, s, h, n - 1);
      var t := TakeAll(s.store, ops[..n - 1]);
      TakeStep(chain, s, h, before, t.taken, t.store);
      es := before + [Read(h)] + [Delete(h)];
    }
  }

  /** Where a taking that fails misses its first output. */
  lemma {:induction false} FirstMiss(store: Store, ops: seq<OutPoint>) returns (k: nat)
    requires !TakeAll(store, ops).ok
    ensures k < |ops| && TakeAll(store, ops[..k]).ok && ops[k] !in TakeAll(store, ops[..k]).store
    ensures TakeAll(store, ops).store == TakeAll(store, ops[..k]).store
  {
    var before := ops[..|ops| - 1];
    if TakeAll(store, before).ok {
      k := |ops| - 1;
    } else {
      k := FirstMiss(store, before);
      assert before[..k] == ops[..k];
    }
  }

  /** An uninterrupted worker that reads and deletes at every input ends with the result and
      the store of the in-memory version. */
  lemma OneByOneIsASchedule(chain: seq<Block>, s: State, h: nat) returns (es: seq<Event>, removed: nat)
    requires JustHandedOver(chain, s, h)
    ensures var o := ConnectOneByOne(s.store, chain[h]);
      Run(chain, s, es) == Some(With(s, h, Ended(o.result, removed), o.store))
  {
    var ops := Spent(chain, h);
    if TakeAll(s.store, ops).ok {
      assert ops[..|ops|] == ops;
      var before := TakeFirst(chain, s, h, |ops|);
      var t := TakeAll(s.store, ops);
      hide Run, TakeAll, With, Assemble;
      assert Values(Somes(t.taken)) == t.taken;
      FinishStep(chain, s, h, before, Somes(t.taken), |ops|, t.store);
      es, removed := before + [Finish(h)], |ops|;
    } else {
      var k := FirstMiss(s.store, ops);
      removed := k;
      es := GiveUpAt(chain, s, h, k);
    }
  }

  lemma GiveUpAt(chain: seq<Block>, s: State, h: nat, k: nat) returns (es: seq<Event>)
    requires JustHandedOver(chain, s, h) && k < |Spent(chain, h)|
    requires TakeAll(s.store, Spent(chain, h)[..k]).ok
    requires Spent(chain, h)[k] !in TakeAll(s.store, Spent(chain, h)[..k]).store
    ensures Run(chain, s, es) == Some(With(s, h, Rejected(k), TakeAll(s.store, Spent(chain, h)[..k]).store))
  {
    var t := TakeAll(s.store, Spent(chain, h)[..k]);
    var before := TakeFirst(chain, s, h, k);
    hide Spent, Run, TakeAll, With;
    ReadStep(chain, s, h, before, Somes(t.taken), k, t.store);
    var answers := Somes(t.taken) + [None];
    assert answers[k] == None;
    FinishStep(chain, s, h, before + [Read(h)], answers, k, t.store);
    es := before + [Read(h)] + [Finish(h)];
  }
}
