/**
 Chains whose inputs may refer to outputs of later blocks, or to nothing.

 The sequential run refuses a block with such an input. The pipeline may have stored the later
 block already when it connects the earlier one, and then accepts it; so what is emitted can
 depend on the schedule. This module says exactly when it does not.
 */
module ForwardReferences {
  import opened Wrappers
  import opened Chain
  import opened FlatStore
  import opened IndexRecord
  import opened Pipeline
  import opened Schedules

  /** The first block that the sequential run refuses. */
  ghost predicate FirstRefused(chain: seq<Block>, r: nat) {
    && r < |chain| && SequentialBlock(chain, r).None?
    && forall h :: 0 <= h < r ==> SequentialBlock(chain, h).Some?
  }

  /** Every input of the block refers to an output of the chain, be it a later one. */
  ghost predicate AllCreated(chain: seq<Block>, h: nat)
    requires h < |chain|
  {
    forall i :: 0 <= i < |Spent(chain, h)| ==> Spent(chain, h)[i] in AllOutputs(chain)
  }

  function ConnectedThrough(chain: seq<Block>, h: nat): ConnectedBlock
    requires h < |chain|
  {
    ConnectedBlock(chain[h].header, ConnectAll(chain[h].txdata, Origin(chain)))
  }

  // ---------- the sequential run of any chain ----------

  lemma {:induction false} SequentialStoreHoldsOrigins(chain: seq<Block>, h: nat, op: OutPoint)
    requires UniqueTxids(chain) && h <= |chain|
    ensures op in SequentialStore(chain, h) ==>
      op in AllOutputs(chain) && SequentialStore(chain, h)[op] == Origin(chain)(op)
  {
    hide UniqueTxids, AllOutputs, Origin, Insert, Attach, Answers;
    if h == 0 {
    } else {
      SequentialStoreHoldsOrigins(chain, h - 1, op);
      InsertedHasOrigin(chain, h - 1, op);
    }
  }

  lemma InsertedHasOrigin(chain: seq<Block>, h: nat, op: OutPoint)
    requires UniqueTxids(chain) && h < |chain|
    requires op in SequentialStore(chain, h) ==>
      op in AllOutputs(chain) && SequentialStore(chain, h)[op] == Origin(chain)(op)
    ensures var store := Insert(SequentialStore(chain, h), chain[h]);
      op in store ==> op in AllOutputs(chain) && store[op] == Origin(chain)(op)
  {
    if op in Created(chain, h) {
      CreatedValue(chain, h, op);
    }
    hide UniqueTxids, AllOutputs, Origin, Outputs;
  }

  /** A block that is accepted has its inputs connected to their origins. */
  lemma AcceptedConnects(chain: seq<Block>, h: nat)
    requires UniqueTxids(chain) && h < |chain| && SequentialBlock(chain, h).Some?
    ensures AllCreated(chain, h) && SequentialBlock(chain, h).value == ConnectedThrough(chain, h)
  {
    var store, ops := Insert(SequentialStore(chain, h), chain[h]), Spent(chain, h);
    var answers := Answers(store, ops);
    assert AllFound(answers);
    hide UniqueTxids, SequentialStore, Insert, Origin, AllOutputs;
    forall i | 0 <= i < |ops| ensures ops[i] in AllOutputs(chain) && answers[i] == Some(Origin(chain)(ops[i])) {
      assert answers[i].Some?;
      SequentialStoreHoldsOrigins(chain, h, ops[i]);
      InsertedHasOrigin(chain, h, ops[i]);
    }
    assert Values(answers) == Map(ops, Origin(chain));
    AssembleConnects(chain[h].txdata, Origin(chain));
  }

  // ---------- what holds of the pipeline without a valid chain ----------

  /** What is stored was inserted and has the right value; what was inserted and not taken is stored. */
  ghost predicate WeaklyAccounted(chain: seq<Block>, s: State, op: OutPoint)
    requires |s.jobs| == |chain|
  {
    && (op in s.store ==> Inserted(chain, s, op) && s.store[op] == Origin(chain)(op))
    && (Inserted(chain, s, op) && !Taken(chain, s, op) ==> op in s.store)
  }

  /** An answer is the origin of its input, and missing only if no block so far created it. */
  ghost predicate AnswerIsFair(chain: seq<Block>, h: nat, op: OutPoint, answer: Option<TxOut>)
    requires h < |chain|
  {
    match answer
    case Some(o) => op in AllOutputs(chain) && o == Origin(chain)(op)
    case None => !CreatedUpTo(chain, h, op)
  }

  ghost predicate WeaklySound(chain: seq<Block>, s: State, h: nat)
    requires WellFormed(chain, s) && h < |chain|
  {
    match s.jobs[h]
    case Waiting => h >= s.claimed
    case Connecting(answers, removed) =>
      && h < s.handed && removed <= |answers| <= |Spent(chain, h)|
      && forall i :: 0 <= i < |answers| ==> AnswerIsFair(chain, h, Spent(chain, h)[i], answers[i])
    case Connected(b) => h < s.handed && AllCreated(chain, h) && b == ConnectedThrough(chain, h)
    case Rejected(_) => h < s.handed
    case _ => s.handed <= h < s.claimed
  }

  ghost predicate WeakInv(chain: seq<Block>, s: State) {
    && WellFormed(chain, s) && s.handed <= s.claimed
    && (forall h :: 0 <= h < |chain| ==> WeaklySound(chain, s, h))
    && (forall op :: WeaklyAccounted(chain, s, op))
    && (forall h :: 0 <= h < |s.emitted| ==> s.jobs[h].Connected? && s.jobs[h].block == s.emitted[h])
  }

  lemma WeaklySoundAt(chain: seq<Block>, s: State, h: nat)
    requires WeakInv(chain, s) && h < |chain|
    ensures WellFormed(chain, s) && s.handed <= s.claimed && WeaklySound(chain, s, h)
  {
  }

  /** An input of a worker that it has not deleted yet was deleted by nobody. */
  lemma PendingIsNotTaken(chain: seq<Block>, s: State, h: nat, i: nat)
    requires NoDoubleSpend(chain) && |s.jobs| == |chain| && h < |chain|
    requires Removed(chain, s, h) <= i < |Spent(chain, h)|
    ensures !Taken(chain, s, Spent(chain, h)[i])
  {
  }

  lemma ReadIsFair(chain: seq<Block>, s: State, h: nat)
    requires UniqueTxids(chain) && NoDoubleSpend(chain) && WeakInv(chain, s) && Enabled(chain, s, Read(h))
    ensures var op := Spent(chain, h)[|s.jobs[h].answers|];
      AnswerIsFair(chain, h, op, Lookup(s.store, op))
  {
    var n := |s.jobs[h].answers|;
    var op := Spent(chain, h)[n];
    WeaklySoundAt(chain, s, h);
    assert WeaklyAccounted(chain, s, op);
    PendingIsNotTaken(chain, s, h, n);
    if op in s.store {
      var k :| 0 <= k < |chain| && HasStored(s, k) && op in Created(chain, k);
      CreatedValue(chain, k, op);
    } else if CreatedUpTo(chain, h, op) {
      var k :| 0 <= k <= h && op in Created(chain, k);
      WeaklySoundAt(chain, s, k);
      assert HasStored(s, k);
    }
  }

  lemma FinishIsFair(chain: seq<Block>, s: State, h: nat)
    requires WeakInv(chain, s) && Enabled(chain, s, Finish(h))
    ensures WeaklySound(chain, Apply(chain, s, Finish(h)), h)
    ensures Removed(chain, Apply(chain, s, Finish(h)), h) == Removed(chain, s, h)
  {
    WeaklySoundAt(chain, s, h);
    var answers, ops := s.jobs[h].answers, Spent(chain, h);
    if AllFound(answers) {
      assert |answers| == |ops|;
      forall i | 0 <= i < |ops| ensures ops[i] in AllOutputs(chain) && answers[i] == Some(Origin(chain)(ops[i])) {
        assert AnswerIsFair(chain, h, ops[i], answers[i]);
      }
      hide WeakInv, WeaklySound, Origin, AllOutputs;
      assert Values(answers) == Map(ops, Origin(chain));
      AssembleConnects(chain[h].txdata, Origin(chain));
    }
  }

  lemma StepIsWeaklySound(chain: seq<Block>, s: State, e: Event, h: nat)
    requires UniqueTxids(chain) && NoDoubleSpend(chain)
    requires WellFormed(chain, s) && WeakInv(chain, s) && Enabled(chain, s, e) && h < |chain|
    ensures WeaklySound(chain, Apply(chain, s, e), h)
  {
    hide UniqueTxids, NoDoubleSpend, WeakInv, AnswerIsFair, AllCreated, ConnectedThrough, Insert, Remove, Attach, Lookup;
    WeaklySoundAt(chain, s, h);
    if e.Read? && e.height == h {
      ReadIsFair(chain, s, h);
    } else if e.Finish? && e.height == h {
      FinishIsFair(chain, s, h);
    } else if e.HandOver? {
      WeaklySoundAt(chain, s, s.handed);
    }
  }

  lemma FetchInserts(chain: seq<Block>, s: State, h: nat, op: OutPoint)
    requires WeakInv(chain, s) && Enabled(chain, s, Fetch(h, true))
    ensures var t := Apply(chain, s, Fetch(h, true));
      && (Taken(chain, s, op) <==> Taken(chain, t, op))
      && (Inserted(chain, t, op) <==> Inserted(chain, s, op) || op in Created(chain, h))
  {
    var t := Apply(chain, s, Fetch(h, true));
    assert forall k :: 0 <= k < |chain| ==> Removed(chain, s, k) == Removed(chain, t, k);
    hide WeakInv, Created, Spent, Insert;
  }

  lemma FetchIsWeaklyAccounted(chain: seq<Block>, s: State, h: nat, op: OutPoint)
    requires UniqueTxids(chain) && WeakInv(chain, s) && Enabled(chain, s, Fetch(h, true))
    ensures WeaklyAccounted(chain, Apply(chain, s, Fetch(h, true)), op)
  {
    AccountedAt(chain, s, op);
    FetchInserts(chain, s, h, op);
    if op in Created(chain, h) {
      CreatedValue(chain, h, op);
    }
    hide WeakInv, UniqueTxids, Taken, Inserted, Origin;
  }

  lemma DeleteIsWeaklyAccounted(chain: seq<Block>, s: State, h: nat, op: OutPoint)
    requires WeakInv(chain, s) && Enabled(chain, s, Delete(h))
    ensures WeaklyAccounted(chain, Apply(chain, s, Delete(h)), op)
  {
    var t := Apply(chain, s, Delete(h));
    var gone := Spent(chain, h)[s.jobs[h].removed];
    assert WeaklyAccounted(chain, s, op);
    assert forall k :: 0 <= k < |chain| ==> HasStored(s, k) == HasStored(t, k);
    assert Inserted(chain, s, op) <==> Inserted(chain, t, op);
    assert Taken(chain, s, op) ==> Taken(chain, t, op) by {
      assert forall k :: 0 <= k < |chain| ==> Removed(chain, t, k) >= Removed(chain, s, k);
    }
    if op == gone {
      assert s.jobs[h].removed < Removed(chain, t, h);
      assert Taken(chain, t, op);
    }
  }

  lemma OtherStepIsWeaklyAccounted(chain: seq<Block>, s: State, e: Event, op: OutPoint)
    requires WellFormed(chain, s) && WeakInv(chain, s) && Enabled(chain, s, e)
    requires !e.Delete? && !(e.Fetch? && e.readable)
    ensures WeaklyAccounted(chain, Apply(chain, s, e), op)
  {
    var t := Apply(chain, s, e);
    assert WeaklyAccounted(chain, s, op);
    forall h | 0 <= h < |chain|
      ensures Removed(chain, s, h) == Removed(chain, t, h) && HasStored(s, h) == HasStored(t, h)
    {
      WeakCountsUntouched(chain, s, e, h);
    }
    assert t.store == s.store;
    hide Apply, Enabled, Removed, HasStored, WeakInv;
    assert Inserted(chain, s, op) <==> Inserted(chain, t, op);
    assert Taken(chain, s, op) <==> Taken(chain, t, op);
  }

  lemma WeakCountsUntouched(chain: seq<Block>, s: State, e: Event, h: nat)
    requires WellFormed(chain, s) && WeakInv(chain, s) && Enabled(chain, s, e) && h < |chain|
    requires !e.Delete? && !(e.Fetch? && e.readable)
    ensures var t := Apply(chain, s, e);
      Removed(chain, s, h) == Removed(chain, t, h) && HasStored(s, h) == HasStored(t, h)
  {
    hide Spent, Attach, Lookup, WeakInv, Insert, Remove;
    if e.Finish? {
      FinishIsFair(chain, s, e.height);
    } else if e.Claim? {
      WeaklySoundAt(chain, s, s.claimed);
    }
  }

  lemma StepIsWeaklyAccounted(chain: seq<Block>, s: State, e: Event, op: OutPoint)
    requires UniqueTxids(chain) && WellFormed(chain, s) && WeakInv(chain, s) && Enabled(chain, s, e)
    ensures WeaklyAccounted(chain, Apply(chain, s, e), op)
  {
    hide *;
    if e.Delete? {
      DeleteIsWeaklyAccounted(chain, s, e.height, op);
    } else if e.Fetch? && e.readable {
      FetchIsWeaklyAccounted(chain, s, e.height, op);
    } else {
      OtherStepIsWeaklyAccounted(chain, s, e, op);
    }
  }

  lemma StepKeepsWeakInv(chain: seq<Block>, s: State, e: Event)
    requires UniqueTxids(chain) && NoDoubleSpend(chain)
    requires WellFormed(chain, s) && WeakInv(chain, s) && Enabled(chain, s, e)
    ensures WeakInv(chain, Apply(chain, s, e))
  {
    var t := Apply(chain, s, e);
    forall h | 0 <= h < |chain| ensures WeaklySound(chain, t, h) {
      StepIsWeaklySound(chain, s, e, h);
    }
    forall op ensures WeaklyAccounted(chain, t, op) {
      StepIsWeaklyAccounted(chain, s, e, op);
    }
    assert s.claimed < |chain| ==> WeaklySound(chain, s, s.claimed);
    assert s.handed < |chain| ==> WeaklySound(chain, s, s.handed);
    hide WeaklyAccounted, Insert, Remove, Attach, Spent, UniqueTxids, NoDoubleSpend;
  }

  lemma {:induction false} RunKeepsWeakInv(chain: seq<Block>, es: seq<Event>)
    requires UniqueTxids(chain) && NoDoubleSpend(chain) && Run(chain, Start(chain), es).Some?
    ensures WeakInv(chain, Run(chain, Start(chain), es).value)
  {
    if es == [] {
    } else {
      hide UniqueTxids, NoDoubleSpend, WeakInv, Enabled, Apply;
      RunKeepsWeakInv(chain, es[..|es| - 1]);
      StepKeepsWeakInv(chain, Run(chain, Start(chain), es[..|es| - 1]).value, es[|es| - 1]);
    }
  }

  // ---------- a schedule that emits a refused block ----------

  /** The first k blocks are stored, and nothing else has happened. */
  ghost predicate Prepared(chain: seq<Block>, s: State, k: nat) {
    && WellFormed(chain, s) && s.claimed == k && s.handed == 0 && s.emitted == []
    && (forall h :: 0 <= h < k ==> s.jobs[h].Stored?)
    && (forall h :: k <= h < |chain| ==> s.jobs[h].Waiting?)
  }

  lemma {:induction false} Prepare(chain: seq<Block>, k: nat) returns (es: seq<Event>)
    requires k <= |chain|
    ensures Run(chain, Start(chain), es).Some? && Prepared(chain, Run(chain, Start(chain), es).value, k)
  {
    if k == 0 {
      es := [];
    } else {
      hide *;
      var before := Prepare(chain, k - 1);
      var s := Run(chain, Start(chain), before).value;
      StartIsWellFormed(chain);
      PrepareStep(chain, s, k - 1);
      RunOneMore(chain, Start(chain), before, Claim);
      RunOneMore(chain, Start(chain), before + [Claim], Fetch(k - 1, true));
      es := before + [Claim] + [Fetch(k - 1, true)];
    }
  }

  lemma StartIsWellFormed(chain: seq<Block>)
    ensures WellFormed(chain, Start(chain))
  {
  }

  lemma PrepareStep(chain: seq<Block>, s: State, k: nat)
    requires k < |chain| && WellFormed(chain, s) && Prepared(chain, s, k)
    ensures Enabled(chain, s, Claim)
    ensures Enabled(chain, Apply(chain, s, Claim), Fetch(k, true))
    ensures Prepared(chain, Apply(chain, Apply(chain, s, Claim), Fetch(k, true)), k + 1)
  {
    hide Insert;
  }

  /** The first m blocks are emitted, and the others stored. */
  ghost predicate EmittedUpTo(chain: seq<Block>, s: State, m: nat) {
    && WellFormed(chain, s) && s.handed == m && |s.emitted| == m
    && (forall h :: m <= h < |chain| ==> s.jobs[h].Stored?)
  }

  /** With everything stored, a block whose inputs were all created is accepted. */
  lemma HandedOverConnects(chain: seq<Block>, s: State, h: nat)
    requires NoDoubleSpend(chain) && WeakInv(chain, s) && JustHandedOver(chain, s, h) && AllCreated(chain, h)
    requires forall k :: 0 <= k < |chain| ==> HasStored(s, k)
    ensures ConnectBatch(s.store, chain[h]).result.Some?
  {
    var ops := Spent(chain, h);
    hide WeakInv, NoDoubleSpend;
    forall i | 0 <= i < |ops| ensures ops[i] in s.store {
      AllOutputsAreCreated(chain, ops[i]);
      var k :| 0 <= k < |chain| && ops[i] in Created(chain, k);
      assert HasStored(s, k);
      assert Inserted(chain, s, ops[i]);
      PendingIsNotTaken(chain, s, h, i);
      AccountedAt(chain, s, ops[i]);
    }
    assert AllFound(Answers(s.store, ops));
  }

  lemma AccountedAt(chain: seq<Block>, s: State, op: OutPoint)
    requires WeakInv(chain, s)
    ensures |s.jobs| == |chain| && WeaklyAccounted(chain, s, op)
  {
  }

  /** The worker of height m, run on its own after the hand-over. */
  lemma ConnectNext(chain: seq<Block>, es: seq<Event>, m: nat) returns (fs: seq<Event>, b: ConnectedBlock, store: Store)
    requires UniqueTxids(chain) && NoDoubleSpend(chain) && m < |chain| && AllCreated(chain, m)
    requires Run(chain, Start(chain), es).Some? && EmittedUpTo(chain, Run(chain, Start(chain), es).value, m)
    ensures var s := Run(chain, Start(chain), es).value;
      Run(chain, Start(chain), fs) == Some(With(s.(handed := m + 1), m, Connected(b), store))
  {
    var s := Run(chain, Start(chain), es).value;
    RunOneMore(chain, Start(chain), es, HandOver);
    var t := Apply(chain, s, HandOver);
    RunKeepsWeakInv(chain, es + [HandOver]);
    EverythingIsStored(chain, s, t, m);
    HandedOverConnects(chain, t, m);
    var gs := BatchIsASchedule(chain, t, m);
    hide WeakInv, ConnectBatch, UniqueTxids, NoDoubleSpend, AllCreated, Run;
    RunConcat(chain, Start(chain), es + [HandOver], gs);
    fs := es + [HandOver] + gs;
    b, store := ConnectBatch(t.store, chain[m]).result.value, ConnectBatch(t.store, chain[m]).store;
    assert s.jobs[m := Connecting([], 0)][m := Connected(b)] == s.jobs[m := Connected(b)];
  }

  lemma EmitNext(chain: seq<Block>, es: seq<Event>, m: nat) returns (fs: seq<Event>)
    requires UniqueTxids(chain) && NoDoubleSpend(chain) && m < |chain| && AllCreated(chain, m)
    requires Run(chain, Start(chain), es).Some? && EmittedUpTo(chain, Run(chain, Start(chain), es).value, m)
    ensures Run(chain, Start(chain), fs).Some? && EmittedUpTo(chain, Run(chain, Start(chain), fs).value, m + 1)
  {
    hide UniqueTxids, NoDoubleSpend, AllCreated, Run;
    var gs, b, store := ConnectNext(chain, es, m);
    RunOneMore(chain, Start(chain), gs, Emit);
    fs := gs + [Emit];
  }

  lemma EverythingIsStored(chain: seq<Block>, s: State, t: State, m: nat)
    requires EmittedUpTo(chain, s, m) && m < |chain| && Enabled(chain, s, HandOver)
    requires t == Apply(chain, s, HandOver) && WeakInv(chain, t)
    ensures JustHandedOver(chain, t, m) && forall k :: 0 <= k < |chain| ==> HasStored(t, k)
  {
    forall k | 0 <= k < |chain| ensures HasStored(t, k) {
      WeaklySoundAt(chain, t, k);
    }
  }

  lemma {:induction false} EmitFirst(chain: seq<Block>, m: nat) returns (es: seq<Event>)
    requires UniqueTxids(chain) && NoDoubleSpend(chain) && m <= |chain|
    requires forall h :: 0 <= h < m ==> AllCreated(chain, h)
    ensures Run(chain, Start(chain), es).Some? && EmittedUpTo(chain, Run(chain, Start(chain), es).value, m)
  {
    hide UniqueTxids, NoDoubleSpend, AllCreated;
    if m == 0 {
      es := Prepare(chain, |chain|);
    } else {
      var before := EmitFirst(chain, m - 1);
      es := EmitNext(chain, before, m - 1);
    }
  }

  // ---------- when the schedule does not matter ----------

  ghost predicate EmitsSequential(chain: seq<Block>, s: State) {
    |s.emitted| <= |chain| && forall h :: 0 <= h < |s.emitted| ==> Some(s.emitted[h]) == SequentialBlock(chain, h)
  }

  /** Of the blocks up to h, the first refused one. */
  lemma {:induction false} LeastRefused(chain: seq<Block>, h: nat) returns (r: nat)
    requires h < |chain| && SequentialBlock(chain, h).None?
    ensures r <= h && FirstRefused(chain, r)
    decreases h
  {
    hide SequentialBlock;
    if k :| 0 <= k < h && SequentialBlock(chain, k).None? {
      r := LeastRefused(chain, k);
    } else {
      r := h;
    }
  }

  lemma EmittedIsAccepted(chain: seq<Block>, s: State, h: nat)
    requires UniqueTxids(chain) && NoDoubleSpend(chain) && Reachable(chain, s) && h < |s.emitted|
    requires forall r: nat :: FirstRefused(chain, r) ==> !AllCreated(chain, r)
    ensures |s.emitted| <= |chain| && Some(s.emitted[h]) == SequentialBlock(chain, h)
  {
    var es :| Run(chain, Start(chain), es) == Some(s);
    RunKeepsWeakInv(chain, es);
    WeaklySoundAt(chain, s, h);
    if SequentialBlock(chain, h).None? {
      var r := LeastRefused(chain, h);
      WeaklySoundAt(chain, s, r);
      assert false;
    }
    AcceptedConnects(chain, h);
  }

  /** With distinct txids and no outpoint spent twice, every schedule emits only blocks of the
      sequential run if and only if the first block that is refused there, if any, has an input
      that refers to no output of the chain. If all its inputs exist, one of them being the output
      of a later block, some schedule emits it. */
  lemma ScheduleDoesNotMatterIff(chain: seq<Block>)
    requires UniqueTxids(chain) && NoDoubleSpend(chain)
    ensures (forall s :: Reachable(chain, s) ==> EmitsSequential(chain, s))
       <==> (forall r: nat :: FirstRefused(chain, r) ==> !AllCreated(chain, r))
  {
    hide UniqueTxids, NoDoubleSpend, Reachable, AllCreated, SequentialBlock;
    if forall r: nat :: FirstRefused(chain, r) ==> !AllCreated(chain, r) {
      forall s | Reachable(chain, s) ensures EmitsSequential(chain, s) {
        EmitsAccepted(chain, s);
      }
    } else {
      var r: nat :| FirstRefused(chain, r) && AllCreated(chain, r);
      var s := RefusedIsEmitted(chain, r);
      assert !EmitsSequential(chain, s);
    }
  }

  lemma EmitsAccepted(chain: seq<Block>, s: State)
    requires UniqueTxids(chain) && NoDoubleSpend(chain) && Reachable(chain, s)
    requires forall r: nat :: FirstRefused(chain, r) ==> !AllCreated(chain, r)
    ensures EmitsSequential(chain, s)
  {
    hide UniqueTxids, NoDoubleSpend, FirstRefused, AllCreated, SequentialBlock;
    var es :| Run(chain, Start(chain), es) == Some(s);
    assert WellFormed(chain, s);
    forall h | 0 <= h < |s.emitted| ensures Some(s.emitted[h]) == SequentialBlock(chain, h) {
      EmittedIsAccepted(chain, s, h);
    }
  }

  lemma RefusedIsEmitted(chain: seq<Block>, r: nat) returns (s: State)
    requires UniqueTxids(chain) && NoDoubleSpend(chain) && FirstRefused(chain, r) && AllCreated(chain, r)
    ensures Reachable(chain, s) && |s.emitted| == r + 1 && SequentialBlock(chain, r).None?
  {
    forall h | 0 <= h < r + 1 ensures AllCreated(chain, h) {
      if h < r {
        AcceptedConnects(chain, h);
      }
    }
    hide AllCreated, UniqueTxids, NoDoubleSpend, SequentialBlock;
    var es := EmitFirst(chain, r + 1);
    s := Run(chain, Start(chain), es).value;
  }

  // ---------- an example ----------

  /** The first block spends an output of the second. */
  function SpendsAhead(header: Header, t: Txid, u: Txid, a: TxOut): seq<Block> {
    [Block(header, [Tx(t, [OutPoint(u, 0)], [])]), Block(header, [Tx(u, [], [a])])]
  }

  lemma SpendsOfAhead(header: Header, t: Txid, u: Txid, a: TxOut)
    ensures var chain := SpendsAhead(header, t, u, a);
      Spent(chain, 0) == [OutPoint(u, 0)] && Spent(chain, 1) == []
  {
    var first, second := Tx(t, [OutPoint(u, 0)], []), Tx(u, [], [a]);
    NonNullOfOne(OutPoint(u, 0));
    SpendsOfOne(first);
    SpendsOfOne(second);
    hide Spends;
  }

  lemma OutputIsAhead(header: Header, t: Txid, u: Txid, a: TxOut)
    requires t != u
    ensures var chain, op := SpendsAhead(header, t, u, a), OutPoint(u, 0);
      op !in Created(chain, 0) && op in Created(chain, 1)
  {
    var chain, op := SpendsAhead(header, t, u, a), OutPoint(u, 0);
    OutputsKeys(chain[0].txdata, op);
    OutputsKeys(chain[1].txdata, op);
    assert chain[1].txdata[0].txid == u;
  }

  lemma AheadIsRefused(header: Header, t: Txid, u: Txid, a: TxOut)
    requires t != u
    ensures SequentialBlock(SpendsAhead(header, t, u, a), 0).None?
  {
    var chain := SpendsAhead(header, t, u, a);
    SpendsOfAhead(header, t, u, a);
    OutputIsAhead(header, t, u, a);
    hide Outputs, Spends;
    assert Answers(Insert(SequentialStore(chain, 0), chain[0]), Spent(chain, 0))[0] == None;
  }

  lemma AheadIsUnique(header: Header, t: Txid, u: Txid, a: TxOut)
    requires t != u
    ensures UniqueTxids(SpendsAhead(header, t, u, a))
  {
  }

  lemma AheadSpendsOnce(header: Header, t: Txid, u: Txid, a: TxOut)
    ensures NoDoubleSpend(SpendsAhead(header, t, u, a))
  {
    SpendsOfAhead(header, t, u, a);
    hide Spent;
  }

  lemma AheadIsCreated(header: Header, t: Txid, u: Txid, a: TxOut)
    requires t != u
    ensures AllCreated(SpendsAhead(header, t, u, a), 0)
  {
    var chain, op := SpendsAhead(header, t, u, a), OutPoint(u, 0);
    SpendsOfAhead(header, t, u, a);
    OutputIsAhead(header, t, u, a);
    hide Spent, Created, AllOutputs;
    assert CreatedBefore(chain, 2, op);
    AllOutputsAreCreated(chain, op);
  }

  lemma AheadIsRefusedFirst(header: Header, t: Txid, u: Txid, a: TxOut)
    requires t != u
    ensures var chain := SpendsAhead(header, t, u, a);
      UniqueTxids(chain) && NoDoubleSpend(chain) && FirstRefused(chain, 0) && AllCreated(chain, 0)
  {
    AheadIsUnique(header, t, u, a);
    AheadSpendsOnce(header, t, u, a);
    AheadIsRefused(header, t, u, a);
    AheadIsCreated(header, t, u, a);
    hide UniqueTxids, NoDoubleSpend, AllCreated, SequentialBlock;
  }

  /** One schedule of the example emits the first block, another refuses it. */
  lemma SchedulesDiffer(header: Header, t: Txid, u: Txid, a: TxOut) returns (accepts: State, refuses: State)
    requires t != u
    ensures var chain := SpendsAhead(header, t, u, a);
      && Reachable(chain, accepts) && |accepts.emitted| == 1
      && Reachable(chain, refuses) && |refuses.jobs| == 2 && refuses.jobs[0].Rejected?
  {
    var chain := SpendsAhead(header, t, u, a);
    AheadIsRefusedFirst(header, t, u, a);
    hide UniqueTxids, NoDoubleSpend, AllCreated, Spent;
    accepts := RefusedIsEmitted(chain, 0);
    refuses := RefusedAtOnce(chain);
  }

  /** If the first block is connected before anything else is stored, it is refused. */
  lemma RefusedAtOnce(chain: seq<Block>) returns (s: State)
    requires FirstRefused(chain, 0)
    ensures Reachable(chain, s) && |s.jobs| == |chain| && s.jobs[0].Rejected?
  {
    hide Insert, ConnectBatch, Spent;
    RunNothing(chain, Start(chain));
    RunOneMore(chain, Start(chain), [], Claim);
    RunOneMore(chain, Start(chain), [] + [Claim], Fetch(0, true));
    RunOneMore(chain, Start(chain), [] + [Claim] + [Fetch(0, true)], HandOver);
    var es := [] + [Claim] + [Fetch(0, true)] + [HandOver];
    s := Run(chain, Start(chain), es).value;
    assert s.store == Insert(SequentialStore(chain, 0), chain[0]);
    var gs := BatchIsASchedule(chain, s, 0);
    RunConcat(chain, Start(chain), es, gs);
    s := Run(chain, Start(chain), es + gs).value;
  }
}
