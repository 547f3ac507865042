/** What holds of every run of the in-memory pipeline, however its lock steps interleave. */
module InMemRuns {
  import opened Wrappers
  import opened Chain
  import opened FlatStore
  import VecMap
  import P = Pipeline
  import opened InMemPipeline

  lemma StartImplements(chain: seq<Block>)
    ensures Inv(chain, Start(chain)) && Implements(Start(chain), P.Start(chain))
  {
    forall op ensures StoreMatches(Start(chain), map[], op) {
    }
  }

  lemma {:induction false} RunSimulates(chain: seq<Block>, es: seq<Event>) returns (fs: seq<P.Event>)
    requires UniqueTxids(chain) && Run(chain, Start(chain), es).Some?
    ensures Inv(chain, Run(chain, Start(chain), es).value)
    ensures P.Run(chain, P.Start(chain), fs).Some?
    ensures Implements(Run(chain, Start(chain), es).value, P.Run(chain, P.Start(chain), fs).value)
  {
    if es == [] {
      fs := [];
      StartImplements(chain);
    } else {
      hide Inv, Implements, UniqueTxids, Enabled, Apply, Image, P.Run;
      var before, e := es[..|es| - 1], es[|es| - 1];
      var gs := RunSimulates(chain, before);
      var s := Run(chain, Start(chain), before).value;
      var p := P.Run(chain, P.Start(chain), gs).value;
      StepInv(chain, s, e);
      StepSimulates(chain, s, e, p);
      fs := gs + Image(chain, s, e);
      P.RunConcat(chain, P.Start(chain), gs, Image(chain, s, e));
    }
  }

  /** Every reachable in-memory state implements a reachable state of the flat pipeline. No
      more than distinct txids is needed. */
  lemma ReachableImplements(chain: seq<Block>, s: State) returns (p: P.State)
    requires UniqueTxids(chain) && Reachable(chain, s)
    ensures Inv(chain, s) && P.Reachable(chain, p) && Implements(s, p)
  {
    var es :| Run(chain, Start(chain), es) == Some(s);
    var fs := RunSimulates(chain, es);
    p := P.Run(chain, P.Start(chain), fs).value;
  }

  /** The in-memory pipeline emits the blocks of the sequential run, in order, and no worker
      ever reports bad data. */
  lemma EmittedIsSequential(chain: seq<Block>, s: State)
    requires ValidChain(chain) && Reachable(chain, s)
    ensures |s.jobs| == |chain| && |s.emitted| <= |chain|
    ensures forall h :: 0 <= h < |s.emitted| ==> Some(s.emitted[h]) == SequentialBlock(chain, h)
    ensures forall h :: 0 <= h < |chain| ==> !s.jobs[h].Rejected?
  {
    var p := ReachableImplements(chain, s);
    P.EmittedIsSequential(chain, p);
    forall h | 0 <= h < |chain| ensures !s.jobs[h].Rejected? {
      assert p.jobs[h] == FlatJob(s.jobs[h]);
    }
  }

  /** In no reachable state does a worker miss its output: before the look-up its txid has a
      key, while it holds the array the slot is occupied, and what it took is the right output. */
  lemma NoWorkerMissesItsOutput(chain: seq<Block>, s: State, h: nat)
    requires ValidChain(chain) && Reachable(chain, s) && |s.jobs| == |chain|
    requires InFlight(chain, s, h) && |s.jobs[h].taken| < |Spent(chain, h)|
    ensures var op := Current(chain, s, h);
      match s.jobs[h].phase
      case AtInput => op.txid in s.keys && SlotAt(s.keys, s.heap, op) == Some(Origin(chain)(op))
      case Holding(id) => id < |s.heap|
        && VecMap.TakeSlot(s.heap[id].slots, op.vout).0 == Some(Origin(chain)(op))
      case MustDrop(_, out) => out == Some(Origin(chain)(op))
  {
    var p := ReachableImplements(chain, s);
    P.ReachableInv(chain, p);
    hide *;
    if s.jobs[h].phase.MustDrop? {
      DropperHoldsItsOutput(chain, s, h, p);
    } else {
      SlotHoldsItsOutput(chain, s, h, p);
    }
  }

  lemma DropperHoldsItsOutput(chain: seq<Block>, s: State, h: nat, p: P.State)
    requires Inv(chain, s) && P.Inv(chain, p) && Implements(s, p) && |s.jobs| == |chain|
    requires InFlight(chain, s, h) && s.jobs[h].phase.MustDrop? && |s.jobs[h].taken| < |Spent(chain, h)|
    ensures s.jobs[h].phase.out == Some(Origin(chain)(Current(chain, s, h)))
  {
    assert p.jobs[h] == FlatJob(s.jobs[h]);
    P.SoundAt(chain, p, h);
    hide Inv, P.Inv, Implements, Origin, Spent;
    assert p.jobs[h].answers[|s.jobs[h].taken|] == s.jobs[h].phase.out;
  }

  lemma SlotHoldsItsOutput(chain: seq<Block>, s: State, h: nat, p: P.State)
    requires ValidChain(chain) && Inv(chain, s) && P.Inv(chain, p) && Implements(s, p) && |s.jobs| == |chain|
    requires InFlight(chain, s, h) && !s.jobs[h].phase.MustDrop? && |s.jobs[h].taken| < |Spent(chain, h)|
    ensures var op := Current(chain, s, h);
      && op.txid in s.keys && SlotAt(s.keys, s.heap, op) == Some(Origin(chain)(op))
      && (s.jobs[h].phase.Holding? ==> (s.jobs[h].phase.id < |s.heap|
          && VecMap.TakeSlot(s.heap[s.jobs[h].phase.id].slots, op.vout).0 == Some(Origin(chain)(op))))
  {
    WorkerAt(chain, s, h);
    assert p.jobs[h] == FlatJob(s.jobs[h]);
    assert StoreMatches(s, p.store, Current(chain, s, h));
    hide Inv, P.Inv, ValidChain, Implements, Origin, Spent;
    P.PendingInputIsInStore(chain, p, h, |s.jobs[h].taken|);
    ReadsTheSlot(chain, s, h, p);
  }

  /** A key is dropped only when every slot of its array is taken; an array out of the map has
      no output left; and each array counts its occupied slots right. */
  lemma KeysAreDroppedEmpty(chain: seq<Block>, s: State)
    requires UniqueTxids(chain) && Reachable(chain, s)
    ensures forall i :: 0 <= i < |s.heap| ==>
      s.heap[i].slots.size == VecMap.Occupied(s.heap[i].slots.inner)
    ensures forall i :: 0 <= i < |s.heap| && s.heap[i].txid !in s.keys ==> VecMap.AllTaken(s.heap[i].slots.inner)
    ensures |s.jobs| == |chain| && forall h: nat :: InFlight(chain, s, h) && s.jobs[h].phase.MustDrop? ==>
      DropsEmptyArray(chain, s, h)
  {
    var p := ReachableImplements(chain, s);
    hide Implements, P.Reachable, Reachable;
    forall i | 0 <= i < |s.heap|
      ensures s.heap[i].slots.size == VecMap.Occupied(s.heap[i].slots.inner)
      ensures s.heap[i].txid !in s.keys ==> VecMap.AllTaken(s.heap[i].slots.inner)
    {
      assert CellOk(s, i);
    }
    forall h: nat | InFlight(chain, s, h) && s.jobs[h].phase.MustDrop? ensures DropsEmptyArray(chain, s, h) {
      WorkerAt(chain, s, h);
    }
  }

  ghost predicate DropsEmptyArray(chain: seq<Block>, s: State, h: nat)
    requires |s.jobs| == |chain| && InFlight(chain, s, h) && s.jobs[h].phase.MustDrop?
  {
    && |s.jobs[h].taken| < |Spent(chain, h)|
    && s.jobs[h].phase.id < |s.heap|
    && s.heap[s.jobs[h].phase.id].txid == Current(chain, s, h).txid
    && VecMap.AllTaken(s.heap[s.jobs[h].phase.id].slots.inner)
  }

  // ---------- runs end, and end complete ----------

  function Rank(j: Job, inputs: nat): int {
    match j
    case Waiting => 3 * inputs + 4
    case Fetching => 3 * inputs + 3
    case Stored => 3 * inputs + 2
    case Connecting(taken, phase) =>
      3 * (inputs - |taken|) + 1 - (match phase case AtInput => 0 case Holding(_) => 1 case MustDrop(_, _) => 2)
    case _ => 0
  }

  function Ranks(chain: seq<Block>, jobs: seq<Job>): int
    requires |jobs| == |chain|
  {
    if jobs == [] then 0
    else Ranks(chain[..|jobs| - 1], jobs[..|jobs| - 1]) + Rank(jobs[|jobs| - 1], |Spent(chain, |jobs| - 1)|)
  }

  function Measure(chain: seq<Block>, s: State): int
    requires WellFormed(chain, s)
  {
    Ranks(chain, s.jobs) + (|chain| - |s.emitted|)
  }

  lemma {:induction false} RanksOfUpdate(chain: seq<Block>, jobs: seq<Job>, h: nat, j: Job)
    requires |jobs| == |chain| && h < |chain|
    ensures Ranks(chain, jobs[h := j])
         == Ranks(chain, jobs) - Rank(jobs[h], |Spent(chain, h)|) + Rank(j, |Spent(chain, h)|)
  {
    hide Rank;
    var n := |jobs| - 1;
    if h == n {
      assert jobs[h := j][..n] == jobs[..n];
    } else {
      assert jobs[h := j][..n] == jobs[..n][h := j];
      RanksOfUpdate(chain[..n], jobs[..n], h, j);
    }
  }

  lemma {:induction false} RanksNotNegative(chain: seq<Block>, s: State, n: nat)
    requires Inv(chain, s) && |s.jobs| == |chain| && n <= |chain|
    ensures Ranks(chain[..n], s.jobs[..n]) >= 0
  {
    if n == 0 {
    } else {
      hide Inv;
      RanksNotNegative(chain, s, n - 1);
      assert chain[..n][..n - 1] == chain[..n - 1] && s.jobs[..n][..n - 1] == s.jobs[..n - 1];
      WorkerAt(chain, s, n - 1);
    }
  }

  lemma WorkerAt(chain: seq<Block>, s: State, h: nat)
    requires Inv(chain, s) && h < |chain|
    ensures |s.jobs| == |chain| && WorkerOk(chain, s, h)
  {
  }

  function Touched(s: State, e: Event): int {
    match e
    case Claim => s.claimed
    case Fetch(h, _) => h
    case HandOver => s.handed
    case LookUp(h) => h
    case TakeSlot(h) => h
    case DropKey(h) => h
    case Finish(h) => h
    case Emit => -1
  }

  lemma StepDecreases(chain: seq<Block>, s: State, e: Event)
    requires WellFormed(chain, s) && Inv(chain, s) && Enabled(chain, s, e)
    ensures Measure(chain, Apply(chain, s, e)) < Measure(chain, s)
  {
    var h, t := Touched(s, e), Apply(chain, s, e);
    if h >= 0 {
      TouchedRankDrops(chain, s, e);
      hide Inv, Rank, Apply, Enabled;
      RanksOfUpdate(chain, s.jobs, h, t.jobs[h]);
    }
  }

  lemma TouchedRankDrops(chain: seq<Block>, s: State, e: Event)
    requires WellFormed(chain, s) && Inv(chain, s) && Enabled(chain, s, e) && Touched(s, e) >= 0
    ensures var h, t := Touched(s, e), Apply(chain, s, e);
      && h < |chain| && t.jobs == s.jobs[h := t.jobs[h]] && t.emitted == s.emitted
      && Rank(t.jobs[h], |Spent(chain, h)|) < Rank(s.jobs[h], |Spent(chain, h)|)
  {
    var h := Touched(s, e);
    WorkerAt(chain, s, h);
    assert e.Claim? ==> s.jobs[s.claimed].Waiting?;
    hide Inv, Spent;
  }

  /** Every run of the in-memory pipeline comes to an end. */
  lemma {:induction false} RunsAreBounded(chain: seq<Block>, es: seq<Event>)
    requires UniqueTxids(chain) && Run(chain, Start(chain), es).Some?
    ensures 0 <= Measure(chain, Run(chain, Start(chain), es).value)
    ensures |es| + Measure(chain, Run(chain, Start(chain), es).value) <= Measure(chain, Start(chain))
  {
    var fs := RunSimulates(chain, es);
    var s := Run(chain, Start(chain), es).value;
    RanksNotNegative(chain, s, |chain|);
    assert chain[..|chain|] == chain && s.jobs[..|chain|] == s.jobs;
    if es == [] {
    } else {
      var before := es[..|es| - 1];
      RunsAreBounded(chain, before);
      var gs := RunSimulates(chain, before);
      StepDecreases(chain, Run(chain, Start(chain), before).value, es[|es| - 1]);
    }
  }

  /** Once a height is unreadable, the first stage may leave the heights after it alone. */
  predicate Abandonable(s: State, e: Event) {
    match e
    case Claim => exists k :: 0 <= k < |s.jobs| && s.jobs[k].Unreadable?
    case Fetch(h, _) => exists k :: 0 <= k < h && k < |s.jobs| && s.jobs[k].Unreadable?
    case _ => false
  }

  /** No step is left but those that may be left undone. */
  ghost predicate Finished(chain: seq<Block>, s: State) {
    WellFormed(chain, s) && forall e :: Enabled(chain, s, e) ==> Abandonable(s, e)
  }

  /** When no step has to be taken, everything before the first unreadable height is emitted. */
  lemma FinishedRunIsSequential(chain: seq<Block>, s: State)
    requires ValidChain(chain) && Reachable(chain, s) && Finished(chain, s)
    ensures |s.emitted| < |chain| ==> s.jobs[|s.emitted|].Unreadable?
    ensures forall h :: 0 <= h < |s.emitted| ==>
      !s.jobs[h].Unreadable? && Some(s.emitted[h]) == SequentialBlock(chain, h)
  {
    var p := ReachableImplements(chain, s);
    P.ReachableInv(chain, p);
    EmittedIsSequential(chain, s);
    hide ValidChain, Reachable, P.Reachable, Inv, P.Inv, Implements, SequentialBlock, Enabled, Finished;
    EmittedAreConnected(chain, s, p);
    if |s.emitted| < |chain| {
      FrontIsUnreadable(chain, s, p);
    }
  }

  lemma FrontIsUnreadable(chain: seq<Block>, s: State, p: P.State)
    requires Inv(chain, s) && Implements(s, p) && P.Inv(chain, p) && Finished(chain, s)
    requires |s.emitted| < |chain|
    ensures s.jobs[|s.emitted|].Unreadable?
  {
    EmittedAreConnected(chain, s, p);
    assert Enabled(chain, s, Emit) ==> Abandonable(s, Emit);
    var n := |s.emitted|;
    hide Inv, P.Inv, Implements, Finished;
    if n < s.handed {
      HandedIsConnected(chain, s, p, n);
    } else {
      HandOverIsBlocked(chain, s, p);
    }
  }

  lemma EmittedAreConnected(chain: seq<Block>, s: State, p: P.State)
    requires Inv(chain, s) && Implements(s, p) && P.Inv(chain, p)
    ensures |s.jobs| == |chain| && |s.emitted| <= |chain|
    ensures forall h :: 0 <= h < |s.emitted| ==> s.jobs[h].Connected?
  {
    forall h | 0 <= h < |s.emitted| ensures s.jobs[h].Connected? {
      assert p.jobs[h] == FlatJob(s.jobs[h]);
    }
  }

  /** What the flat invariant says of a job, seen from the in-memory state. */
  lemma JobIsPlaced(chain: seq<Block>, s: State, p: P.State, h: nat)
    requires Inv(chain, s) && Implements(s, p) && P.Inv(chain, p) && h < |chain|
    ensures |s.jobs| == |chain| && WorkerOk(chain, s, h) && s.handed <= s.claimed
    ensures match s.jobs[h]
      case Waiting => h >= s.claimed
      case Fetching => s.handed <= h < s.claimed
      case Unreadable => s.handed <= h < s.claimed
      case Stored => s.handed <= h < s.claimed
      case Connecting(_, _) => h < s.handed
      case Connected(_) => h < s.handed
      case Rejected(_) => false
  {
    P.SoundAt(chain, p, h);
    assert p.jobs[h] == FlatJob(s.jobs[h]);
  }

  lemma HandOverIsBlocked(chain: seq<Block>, s: State, p: P.State)
    requires Inv(chain, s) && Implements(s, p) && P.Inv(chain, p) && Finished(chain, s) && s.handed < |chain|
    ensures s.jobs[s.handed].Unreadable?
  {
    var h := s.handed;
    JobIsPlaced(chain, s, p, h);
    assert Enabled(chain, s, HandOver) ==> Abandonable(s, HandOver);
    assert Enabled(chain, s, Claim) ==> Abandonable(s, Claim);
    assert Enabled(chain, s, Fetch(h, false)) ==> Abandonable(s, Fetch(h, false));
    hide Inv, P.Inv, Implements, Finished;
    forall k | 0 <= k < |chain| && s.jobs[k].Unreadable? ensures h <= k < s.claimed {
      JobIsPlaced(chain, s, p, k);
    }
  }

  lemma HandedIsConnected(chain: seq<Block>, s: State, p: P.State, h: nat)
    requires Inv(chain, s) && Implements(s, p) && P.Inv(chain, p) && Finished(chain, s) && h < |chain| && h < s.handed
    ensures s.jobs[h].Connected?
  {
    JobIsPlaced(chain, s, p, h);
    assert Enabled(chain, s, LookUp(h)) ==> Abandonable(s, LookUp(h));
    assert Enabled(chain, s, TakeSlot(h)) ==> Abandonable(s, TakeSlot(h));
    assert Enabled(chain, s, DropKey(h)) ==> Abandonable(s, DropKey(h));
    assert Enabled(chain, s, Finish(h)) ==> Abandonable(s, Finish(h));
    hide Inv, P.Inv, Implements, Finished;
  }

  lemma RunFrom(chain: seq<Block>, s: State, e: Event, es: seq<Event>)
    requires WellFormed(chain, s) && Enabled(chain, s, e)
    ensures Run(chain, s, [e] + es) == Run(chain, Apply(chain, s, e), es)
    decreases |es|
  {
    hide Enabled, Apply, WellFormed;
    if es == [] {
      assert [e] + es == [e] && [e][..0] == [];
      assert Run(chain, s, []) == Some(s);
    } else {
      RunFrom(chain, s, e, es[..|es| - 1]);
      assert ([e] + es)[..|es|] == [e] + es[..|es| - 1];
    }
  }

  /** Wherever a run has come, it can be brought to its end. */
  lemma {:induction false} FinishedIsReachable(chain: seq<Block>, s: State) returns (es: seq<Event>, t: State)
    requires UniqueTxids(chain) && Inv(chain, s) && WellFormed(chain, s)
    ensures Run(chain, s, es) == Some(t) && Finished(chain, t)
    decreases Measure(chain, s)
  {
    if Finished(chain, s) {
      es, t := [], s;
    } else {
      var e :| Enabled(chain, s, e) && !Abandonable(s, e);
      StepInv(chain, s, e);
      StepDecreases(chain, s, e);
      RanksNotNegative(chain, s, |chain|);
      assert chain[..|chain|] == chain && s.jobs[..|chain|] == s.jobs;
      hide UniqueTxids, Inv, Finished, Enabled, Apply, Ranks;
      var fs: seq<Event>;
      fs, t := FinishedIsReachable(chain, Apply(chain, s, e));
      RunFrom(chain, s, e, fs);
      es := [e] + fs;
    }
  }

  // ---------- no key is kept for nothing ----------

  /** Array i is in the map with no slot left only if it never had one or a worker is about to
      drop its key. */
  ghost predicate KeyIsNeeded(s: State, i: nat)
    requires i < |s.heap|
  {
    s.heap[i].txid in s.keys && s.keys[s.heap[i].txid] == i && VecMap.AllTaken(s.heap[i].slots.inner) ==>
      |s.heap[i].slots.inner| == 0 || WillBeDropped(s, i)
  }

  ghost predicate WillBeDropped(s: State, i: nat) {
    exists h :: 0 <= h < |s.jobs| && Drops(s.jobs[h], i)
  }

  predicate Drops(j: Job, i: nat) {
    j.Connecting? && j.phase.MustDrop? && j.phase.id == i
  }

  /** Steps that leave an array, the map and the workers that drop keys alone. */
  lemma DropsStay(s: State, t: State, h: nat, i: nat)
    requires WillBeDropped(s, i) && h < |s.jobs| == |t.jobs| && t.jobs == s.jobs[h := t.jobs[h]]
    requires !Drops(s.jobs[h], i)
    ensures WillBeDropped(t, i)
  {
    var k :| 0 <= k < |s.jobs| && Drops(s.jobs[k], i);
    assert Drops(t.jobs[k], i);
  }

  lemma TakeSlotNeedsKeys(chain: seq<Block>, s: State, h: nat, i: nat)
    requires Inv(chain, s) && Enabled(chain, s, TakeSlot(h)) && i < |s.heap| && KeyIsNeeded(s, i)
    ensures KeyIsNeeded(DoTakeSlot(chain, s, h), i)
  {
    var t, id := DoTakeSlot(chain, s, h), s.jobs[h].phase.id;
    if i == id {
      VecMap.RemovalKeepsCount(s.heap[id].slots, Current(chain, s, h).vout) by { assert CellOk(s, id); }
      if VecMap.AllTaken(t.heap[i].slots.inner) {
        assert Drops(t.jobs[h], i);
      }
    } else if WillBeDropped(s, i) {
      DropsStay(s, t, h, i);
    }
  }

  lemma DropKeyNeedsKeys(chain: seq<Block>, s: State, h: nat, i: nat)
    requires Inv(chain, s) && Enabled(chain, s, DropKey(h)) && i < |s.heap| && KeyIsNeeded(s, i)
    ensures KeyIsNeeded(DoDropKey(chain, s, h), i)
  {
    WorkerAt(chain, s, h);
    if WillBeDropped(s, i) && !Drops(s.jobs[h], i) {
      DropsStay(s, DoDropKey(chain, s, h), h, i);
    }
  }

  lemma FetchNeedsKeys(chain: seq<Block>, s: State, h: nat, i: nat)
    requires Inv(chain, s) && Enabled(chain, s, Fetch(h, true)) && i < |DoFetch(chain, s, h).heap|
    requires i < |s.heap| ==> KeyIsNeeded(s, i)
    ensures KeyIsNeeded(DoFetch(chain, s, h), i)
  {
    var t := DoFetch(chain, s, h);
    NewKeysMeaning(chain[h].txdata, |s.heap|, t.heap[i].txid);
    if i < |s.heap| {
      assert t.heap[i] == s.heap[i];
      if WillBeDropped(s, i) {
        DropsStay(s, t, h, i);
      }
    } else {
      NewCellIsFull(chain[h].txdata[i - |s.heap|]);
    }
  }

  lemma NewCellIsFull(tx: Tx)
    ensures VecMap.AllTaken(NewCell(tx).slots.inner) ==> |NewCell(tx).slots.inner| == 0
  {
    if |tx.outputs| > 0 {
      assert NewCell(tx).slots.inner[0].Some?;
    }
  }

  lemma OtherStepNeedsKeys(chain: seq<Block>, s: State, e: Event, i: nat)
    requires WellFormed(chain, s) && Inv(chain, s) && Enabled(chain, s, e) && i < |s.heap| && KeyIsNeeded(s, i)
    requires !e.TakeSlot? && !e.DropKey? && !(e.Fetch? && e.readable)
    ensures i < |Apply(chain, s, e).heap| && KeyIsNeeded(Apply(chain, s, e), i)
  {
    var h, t := Touched(s, e), Apply(chain, s, e);
    hide VecMap.AllTaken;
    if h >= 0 && WillBeDropped(s, i) {
      WorkerAt(chain, s, h);
      assert e.Claim? ==> s.jobs[s.claimed].Waiting?;
      hide Inv, WillBeDropped;
      DropsStay(s, t, h, i);
    }
  }

  lemma StepNeedsKeys(chain: seq<Block>, s: State, e: Event, i: nat)
    requires WellFormed(chain, s) && Inv(chain, s) && Enabled(chain, s, e)
    requires i < |Apply(chain, s, e).heap| && (i < |s.heap| ==> KeyIsNeeded(s, i))
    ensures KeyIsNeeded(Apply(chain, s, e), i)
  {
    hide KeyIsNeeded, Inv;
    match e
    case TakeSlot(h) => TakeSlotNeedsKeys(chain, s, h, i);
    case DropKey(h) => DropKeyNeedsKeys(chain, s, h, i);
    case Fetch(h, readable) =>
      if readable {
        FetchNeedsKeys(chain, s, h, i);
      } else {
        OtherStepNeedsKeys(chain, s, e, i);
      }
    case _ => OtherStepNeedsKeys(chain, s, e, i);
  }

  lemma {:induction false} RunNeedsKeys(chain: seq<Block>, es: seq<Event>, i: nat)
    requires UniqueTxids(chain) && Run(chain, Start(chain), es).Some?
    requires i < |Run(chain, Start(chain), es).value.heap|
    ensures KeyIsNeeded(Run(chain, Start(chain), es).value, i)
  {
    if es == [] {
    } else {
      hide KeyIsNeeded, Inv, UniqueTxids, Apply, Enabled;
      var before := es[..|es| - 1];
      var s := Run(chain, Start(chain), before).value;
      var fs := RunSimulates(chain, before);
      if i < |s.heap| {
        RunNeedsKeys(chain, before, i);
      }
      StepNeedsKeys(chain, s, es[|es| - 1], i);
    }
  }

  /** No key is kept for nothing: in every reachable state an array in the map with no slot left
      belongs to a transaction without outputs, or a worker is about to drop its key. */
  lemma NoKeyIsKeptForNothing(chain: seq<Block>, s: State, i: nat)
    requires UniqueTxids(chain) && Reachable(chain, s) && i < |s.heap|
    ensures KeyIsNeeded(s, i)
  {
    var es :| Run(chain, Start(chain), es) == Some(s);
    RunNeedsKeys(chain, es, i);
  }

  // ---------- transactions without outputs ----------

  /** The array was made for a transaction of the chain and has a slot for each output of it. */
  ghost predicate FitsTx(chain: seq<Block>, c: Cell) {
    exists h, j :: 0 <= h < |chain| && 0 <= j < |chain[h].txdata| && IsArrayOf(c, chain[h].txdata[j])
  }

  predicate IsArrayOf(c: Cell, tx: Tx) {
    c.txid == tx.txid && |c.slots.inner| == |tx.outputs|
  }

  /** An array without slots is in the map. */
  ghost predicate EmptyIsKeyed(chain: seq<Block>, s: State, i: nat)
    requires i < |s.heap|
  {
    && FitsTx(chain, s.heap[i])
    && (|s.heap[i].slots.inner| == 0 ==> s.heap[i].txid in s.keys && s.keys[s.heap[i].txid] == i)
  }

  lemma SlotCountStays(s: State, t: State, i: nat, chain: seq<Block>)
    requires i < |s.heap| && i < |t.heap| && FitsTx(chain, s.heap[i])
    requires t.heap[i].txid == s.heap[i].txid && |t.heap[i].slots.inner| == |s.heap[i].slots.inner|
    ensures FitsTx(chain, t.heap[i])
  {
    var h, j :| 0 <= h < |chain| && 0 <= j < |chain[h].txdata| && IsArrayOf(s.heap[i], chain[h].txdata[j]);
    assert IsArrayOf(t.heap[i], chain[h].txdata[j]);
  }

  /** A worker never holds an array without slots. */
  lemma HeldArrayHasSlots(chain: seq<Block>, s: State, h: nat, id: nat)
    requires ValidChain(chain) && h < |chain| && |s.jobs| == |chain| && InFlight(chain, s, h)
    requires |s.jobs[h].taken| < |Spent(chain, h)| && id < |s.heap|
    requires s.heap[id].txid == Current(chain, s, h).txid && FitsTx(chain, s.heap[id])
    ensures |s.heap[id].slots.inner| > 0
  {
    var op := Current(chain, s, h);
    assert CreatedUpTo(chain, h, op);
    var k :| 0 <= k <= h && op in Created(chain, k);
    OutputsKeys(chain[k].txdata, op);
    var j :| 0 <= j < |chain[k].txdata| && chain[k].txdata[j].txid == op.txid && op.vout < |chain[k].txdata[j].outputs|;
    var h', j' :| 0 <= h' < |chain| && 0 <= j' < |chain[h'].txdata| && IsArrayOf(s.heap[id], chain[h'].txdata[j']);
    SameTransaction(chain, k, j, h', j');
  }

  lemma SameTransaction(chain: seq<Block>, h: nat, i: nat, k: nat, j: nat)
    requires ValidChain(chain) && h < |chain| && i < |chain[h].txdata| && k < |chain| && j < |chain[k].txdata|
    requires chain[h].txdata[i].txid == chain[k].txdata[j].txid
    ensures h == k && i == j
  {
  }

  lemma FetchKeysEmpty(chain: seq<Block>, s: State, h: nat, i: nat)
    requires UniqueTxids(chain) && Inv(chain, s) && Enabled(chain, s, Fetch(h, true)) && i < |DoFetch(chain, s, h).heap|
    requires i < |s.heap| ==> EmptyIsKeyed(chain, s, i)
    ensures EmptyIsKeyed(chain, DoFetch(chain, s, h), i)
  {
    var txs, t := chain[h].txdata, DoFetch(chain, s, h);
    NewKeysMeaning(txs, |s.heap|, t.heap[i].txid);
    FetchKeysLead(chain, s, h);
    FetchArraysDiffer(chain, s, h);
    if i < |s.heap| {
      assert t.heap[i] == s.heap[i];
    } else {
      assert t.heap[i] == NewCell(txs[i - |s.heap|]);
      assert IsArrayOf(t.heap[i], txs[i - |s.heap|]);
      hide FitsTx, Inv, UniqueTxids, NewKeys;
    }
  }

  lemma DropKeyKeepsEmpty(chain: seq<Block>, s: State, h: nat, i: nat)
    requires ValidChain(chain) && Inv(chain, s) && Enabled(chain, s, DropKey(h)) && i < |s.heap|
    requires EmptyIsKeyed(chain, s, i)
    ensures EmptyIsKeyed(chain, DoDropKey(chain, s, h), i)
  {
    WorkerAt(chain, s, h);
    hide Inv, ValidChain, FitsTx, Spent;
    if s.heap[i].txid == Current(chain, s, h).txid {
      HeldArrayHasSlots(chain, s, h, i);
    }
  }

  lemma StepKeepsEmpty(chain: seq<Block>, s: State, e: Event, i: nat)
    requires ValidChain(chain) && WellFormed(chain, s) && Inv(chain, s) && Enabled(chain, s, e)
    requires i < |Apply(chain, s, e).heap| && (i < |s.heap| ==> EmptyIsKeyed(chain, s, i))
    ensures EmptyIsKeyed(chain, Apply(chain, s, e), i)
  {
    if e.DropKey? {
      DropKeyKeepsEmpty(chain, s, e.height, i);
    } else if e.Fetch? && e.readable {
      FetchKeysEmpty(chain, s, e.height, i);
    } else {
      hide ValidChain, Inv, FitsTx, Spent;
      SlotCountStays(s, Apply(chain, s, e), i, chain);
    }
  }

  lemma {:induction false} RunKeepsEmpty(chain: seq<Block>, es: seq<Event>, i: nat)
    requires ValidChain(chain) && Run(chain, Start(chain), es).Some?
    requires i < |Run(chain, Start(chain), es).value.heap|
    ensures EmptyIsKeyed(chain, Run(chain, Start(chain), es).value, i)
  {
    if es == [] {
    } else {
      hide EmptyIsKeyed, Inv, UniqueTxids, NoDoubleSpend, NoDanglingInput, Apply, Enabled;
      var before := es[..|es| - 1];
      var s := Run(chain, Start(chain), before).value;
      var fs := RunSimulates(chain, before);
      if i < |s.heap| {
        RunKeepsEmpty(chain, before, i);
      }
      StepKeepsEmpty(chain, s, es[|es| - 1], i);
    }
  }

  /** On a valid chain the key of a transaction without outputs is never dropped. */
  lemma EmptyArraysKeepTheirKeys(chain: seq<Block>, s: State, i: nat)
    requires ValidChain(chain) && Reachable(chain, s) && i < |s.heap| && |s.heap[i].slots.inner| == 0
    ensures s.heap[i].txid in s.keys && s.keys[s.heap[i].txid] == i
  {
    var es :| Run(chain, Start(chain), es) == Some(s);
    RunKeepsEmpty(chain, es, i);
  }
}
