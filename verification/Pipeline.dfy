/**
 The two-stage pipeline as a transition system over the flat store.

 What is assumed of the parallel iterator that runs both stages: heights are claimed in
 order, results are handed on in input order, and nothing after the first failed height is
 handed on. Everything else is free: workers of both stages take their steps in any order,
 and a second-stage worker reads its keys and deletes them one at a time, a key never being
 deleted before it was read. The on-disk version, which reads all keys before it deletes the
 first, is one such order; the in-memory version, which does both at once, is another.
 */
module Pipeline {
  import opened Wrappers
  import opened Chain
  import opened FlatStore

  /** Where one height is on its way through the pipeline. */
  datatype Job =
    | Waiting
    | Fetching
    | Unreadable
    | Stored
    | Connecting(answers: seq<Option<TxOut>>, removed: nat)
    | Connected(block: ConnectedBlock)
    | Rejected(removed: nat)

  datatype State = State(jobs: seq<Job>, store: Store, claimed: nat, handed: nat, emitted: seq<ConnectedBlock>)

  datatype Event =
    | Claim
    | Fetch(height: nat, readable: bool)
    | HandOver
    | Read(height: nat)
    | Delete(height: nat)
    | Finish(height: nat)
    | Emit

  function Start(chain: seq<Block>): State {
    State(seq(|chain|, _ => Waiting), map[], 0, 0, [])
  }

  predicate WellFormed(chain: seq<Block>, s: State) {
    |s.jobs| == |chain| && s.claimed <= |chain| && s.handed <= |chain| && |s.emitted| <= |chain|
  }

  predicate InFlight(chain: seq<Block>, s: State, h: nat)
    requires WellFormed(chain, s)
  {
    h < |chain| && s.jobs[h].Connecting?
  }

  predicate Enabled(chain: seq<Block>, s: State, e: Event)
    requires WellFormed(chain, s)
  {
    match e
    case Claim => s.claimed < |chain|
    case Fetch(h, _) => h < |chain| && s.jobs[h].Fetching?
    case HandOver => s.handed < |chain| && s.jobs[s.handed].Stored?
    case Read(h) => InFlight(chain, s, h) && |s.jobs[h].answers| < |Spent(chain, h)|
    case Delete(h) => InFlight(chain, s, h) && s.jobs[h].removed < |s.jobs[h].answers| <= |Spent(chain, h)|
    case Finish(h) => InFlight(chain, s, h) &&
      (!AllFound(s.jobs[h].answers) || |s.jobs[h].answers| == s.jobs[h].removed == |Spent(chain, h)|)
    case Emit => |s.emitted| < |chain| && s.jobs[|s.emitted|].Connected?
  }

  function Apply(chain: seq<Block>, s: State, e: Event): (r: State)
    requires WellFormed(chain, s) && Enabled(chain, s, e)
    ensures WellFormed(chain, r)
  {
    match e
    case Claim => s.(jobs := s.jobs[s.claimed := Fetching], claimed := s.claimed + 1)
    case Fetch(h, readable) =>
      if readable then s.(jobs := s.jobs[h := Stored], store := Insert(s.store, chain[h]))
      else s.(jobs := s.jobs[h := Unreadable])
    case HandOver => s.(jobs := s.jobs[s.handed := Connecting([], 0)], handed := s.handed + 1)
    case Read(h) =>
      var j := s.jobs[h];
      s.(jobs := s.jobs[h := j.(answers := j.answers + [Lookup(s.store, Spent(chain, h)[|j.answers|])])])
    case Delete(h) =>
      var j := s.jobs[h];
      s.(jobs := s.jobs[h := j.(removed := j.removed + 1)], store := Remove(s.store, [Spent(chain, h)[j.removed]]))
    case Finish(h) =>
      var j := s.jobs[h];
      var done := if AllFound(j.answers) then Connected(Attach(chain[h], j.answers).value) else Rejected(j.removed);
      s.(jobs := s.jobs[h := done])
    case Emit => s.(emitted := s.emitted + [s.jobs[|s.emitted|].block])
  }

  /** The state a schedule leads to, if every event of it is enabled when its turn comes. */
  function Run(chain: seq<Block>, s: State, es: seq<Event>): (r: Option<State>)
    requires WellFormed(chain, s)
    ensures r.Some? ==> WellFormed(chain, r.value)
  {
    if es == [] then Some(s)
    else
      var before :- Run(chain, s, es[..|es| - 1]);
      if Enabled(chain, before, es[|es| - 1]) then Some(Apply(chain, before, es[|es| - 1])) else None
  }

  ghost predicate Reachable(chain: seq<Block>, s: State) {
    exists es :: Run(chain, Start(chain), es) == Some(s)
  }

  lemma {:induction false} RunConcat(chain: seq<Block>, s: State, es: seq<Event>, fs: seq<Event>)
    requires WellFormed(chain, s) && Run(chain, s, es).Some?
    ensures Run(chain, s, es + fs) == Run(chain, Run(chain, s, es).value, fs)
  {
    hide Enabled, Apply;
    if fs == [] {
      assert es + fs == es;
    } else {
      var shorter := fs[..|fs| - 1];
      RunConcat(chain, s, es, shorter);
      assert (es + fs)[..|es + fs| - 1] == es + shorter;
    }
  }

  // ---------- the invariant ----------

  /** How many outputs the job of height h has deleted. */
  function Removed(chain: seq<Block>, s: State, h: nat): nat
    requires h < |s.jobs| == |chain|
  {
    match s.jobs[h]
    case Connecting(_, r) => r
    case Connected(_) => |Spent(chain, h)|
    case Rejected(r) => r
    case _ => 0
  }

  predicate HasStored(s: State, h: nat)
    requires h < |s.jobs|
  {
    !s.jobs[h].Waiting? && !s.jobs[h].Fetching? && !s.jobs[h].Unreadable?
  }

  /** `op` was deleted by the job whose input it is. */
  ghost predicate Taken(chain: seq<Block>, s: State, op: OutPoint)
    requires |s.jobs| == |chain|
  {
    exists h, i :: 0 <= h < |chain| && 0 <= i < Removed(chain, s, h) && i < |Spent(chain, h)| && Spent(chain, h)[i] == op
  }

  ghost predicate Inserted(chain: seq<Block>, s: State, op: OutPoint)
    requires |s.jobs| == |chain|
  {
    exists h :: 0 <= h < |chain| && HasStored(s, h) && op in Created(chain, h)
  }

  /** The store is exactly what was inserted and not yet taken, and holds the right outputs. */
  ghost predicate StoreIsAccounted(chain: seq<Block>, s: State, op: OutPoint)
    requires |s.jobs| == |chain|
  {
    && (op in s.store <==> Inserted(chain, s, op) && !Taken(chain, s, op))
    && (op in s.store ==> s.store[op] == Origin(chain)(op))
  }

  /** A worker's answers are the origins of its first inputs. */
  ghost predicate AnswersAreOrigins(chain: seq<Block>, h: nat, answers: seq<Option<TxOut>>)
    requires h < |chain|
  {
    && |answers| <= |Spent(chain, h)|
    && forall i :: 0 <= i < |answers| ==> answers[i] == Some(Origin(chain)(Spent(chain, h)[i]))
  }

  ghost predicate JobIsSound(chain: seq<Block>, s: State, h: nat)
    requires WellFormed(chain, s) && h < |chain|
  {
    match s.jobs[h]
    case Waiting => h >= s.claimed
    case Fetching => s.handed <= h < s.claimed
    case Unreadable => s.handed <= h < s.claimed
    case Stored => s.handed <= h < s.claimed
    case Connecting(answers, removed) => h < s.handed && removed <= |answers| && AnswersAreOrigins(chain, h, answers)
    case Connected(b) => h < s.handed && Some(b) == SequentialBlock(chain, h)
    case Rejected(_) => false
  }

  ghost predicate Inv(chain: seq<Block>, s: State) {
    && WellFormed(chain, s)
    && s.handed <= s.claimed
    && (forall h :: 0 <= h < |chain| ==> JobIsSound(chain, s, h))
    && (forall op :: StoreIsAccounted(chain, s, op))
    && (forall h :: 0 <= h < |s.emitted| ==> s.jobs[h].Connected? && s.jobs[h].block == s.emitted[h])
  }

  lemma StartInv(chain: seq<Block>)
    ensures Inv(chain, Start(chain))
  {
  }

  /** When the second stage works on a height, the first is done with all heights up to it. */
  lemma FirstStageIsAhead(chain: seq<Block>, s: State, h: nat, k: nat)
    requires Inv(chain, s) && k <= h < |chain| && s.jobs[h].Connecting?
    ensures HasStored(s, k)
  {
    assert JobIsSound(chain, s, h);
    assert JobIsSound(chain, s, k);
  }

  /** An output that a worker has yet to delete is in the store, with its right value. */
  lemma PendingInputIsInStore(chain: seq<Block>, s: State, h: nat, i: nat)
    requires ValidChain(chain) && Inv(chain, s) && h < |chain| && s.jobs[h].Connecting?
    requires s.jobs[h].removed <= i < |Spent(chain, h)|
    ensures Lookup(s.store, Spent(chain, h)[i]) == Some(Origin(chain)(Spent(chain, h)[i]))
  {
    var op := Spent(chain, h)[i];
    assert CreatedUpTo(chain, h, op);
    var k :| 0 <= k <= h && op in Created(chain, k);
    FirstStageIsAhead(chain, s, h, k);
    assert Inserted(chain, s, op);
    assert StoreIsAccounted(chain, s, op);
  }

  // ---------- every step keeps it ----------

  /** Steps that leave the store and the counts of deleted outputs alone keep the accounts. */
  lemma AccountsUntouched(chain: seq<Block>, s: State, t: State, op: OutPoint)
    requires |s.jobs| == |t.jobs| == |chain| && t.store == s.store
    requires forall h :: 0 <= h < |chain| ==> Removed(chain, s, h) == Removed(chain, t, h) && HasStored(s, h) == HasStored(t, h)
    requires StoreIsAccounted(chain, s, op)
    ensures StoreIsAccounted(chain, t, op)
  {
    assert Inserted(chain, s, op) <==> Inserted(chain, t, op);
    assert Taken(chain, s, op) <==> Taken(chain, t, op);
  }

  lemma FetchAccounts(chain: seq<Block>, s: State, h: nat, op: OutPoint)
    requires ValidChain(chain) && Inv(chain, s) && Enabled(chain, s, Fetch(h, true))
    ensures StoreIsAccounted(chain, Apply(chain, s, Fetch(h, true)), op)
  {
    var t := Apply(chain, s, Fetch(h, true));
    assert StoreIsAccounted(chain, s, op);
    assert forall k :: 0 <= k < |chain| ==> Removed(chain, s, k) == Removed(chain, t, k);
    assert Taken(chain, s, op) <==> Taken(chain, t, op);
    assert Inserted(chain, t, op) <==> Inserted(chain, s, op) || op in Created(chain, h);
    if op in Created(chain, h) {
      CreatedValue(chain, h, op);
      assert !Taken(chain, s, op) by { NotTakenBeforeStored(chain, s, h, op); }
    }
  }

  /** Nobody can have spent an output whose block is still being fetched. */
  lemma NotTakenBeforeStored(chain: seq<Block>, s: State, h: nat, op: OutPoint)
    requires ValidChain(chain) && Inv(chain, s) && h < |chain| && !HasStored(s, h)
    requires op in Created(chain, h)
    ensures !Taken(chain, s, op)
  {
    forall k, i | 0 <= k < |chain| && 0 <= i < Removed(chain, s, k) && i < |Spent(chain, k)|
      ensures Spent(chain, k)[i] != op
    {
      assert JobIsSound(chain, s, k);
      assert JobIsSound(chain, s, h);
      assert CreatedUpTo(chain, k, Spent(chain, k)[i]);
      var c :| 0 <= c <= k && Spent(chain, k)[i] in Created(chain, c);
      if Spent(chain, k)[i] == op {
        OneCreator(chain, h, c, op);
      }
    }
  }

  lemma DeleteAccounts(chain: seq<Block>, s: State, h: nat, op: OutPoint)
    requires ValidChain(chain) && Inv(chain, s) && Enabled(chain, s, Delete(h))
    ensures StoreIsAccounted(chain, Apply(chain, s, Delete(h)), op)
  {
    var t := Apply(chain, s, Delete(h));
    var gone := Spent(chain, h)[s.jobs[h].removed];
    assert StoreIsAccounted(chain, s, op);
    assert forall k :: 0 <= k < |chain| ==> HasStored(s, k) == HasStored(t, k);
    assert Inserted(chain, s, op) <==> Inserted(chain, t, op);
    assert forall k :: 0 <= k < |chain| ==> Removed(chain, t, k) == if k == h then Removed(chain, s, h) + 1 else Removed(chain, s, k);
    assert Taken(chain, t, op) <==> Taken(chain, s, op) || op == gone by {
      if op == gone {
        assert s.jobs[h].removed < Removed(chain, t, h);
      }
    }
  }

  lemma FinishSound(chain: seq<Block>, s: State, h: nat)
    requires ValidChain(chain) && Inv(chain, s) && Enabled(chain, s, Finish(h))
    ensures var t := Apply(chain, s, Finish(h));
      && t.jobs[h].Connected? && Some(t.jobs[h].block) == SequentialBlock(chain, h)
      && Removed(chain, t, h) == Removed(chain, s, h)
  {
    assert JobIsSound(chain, s, h);
    var answers := s.jobs[h].answers;
    assert AllFound(answers);
    assert Values(answers) == Map(Spent(chain, h), Origin(chain));
    AssembleConnects(chain[h].txdata, Origin(chain));
    SequentialBlockConnects(chain, h);
  }

  /** Claim, hand-over, read, finish, emission and a failed fetch move no output. */
  lemma OtherStepAccounts(chain: seq<Block>, s: State, e: Event, op: OutPoint)
    requires ValidChain(chain) && Inv(chain, s) && Enabled(chain, s, e)
    requires !e.Delete? && !(e.Fetch? && e.readable)
    ensures StoreIsAccounted(chain, Apply(chain, s, e), op)
  {
    var t := Apply(chain, s, e);
    forall h | 0 <= h < |chain|
      ensures Removed(chain, s, h) == Removed(chain, t, h) && HasStored(s, h) == HasStored(t, h)
    {
      CountsUntouched(chain, s, e, h);
    }
    hide Apply, Enabled, ValidChain, Removed, HasStored;
    assert StoreIsAccounted(chain, s, op);
    AccountsUntouched(chain, s, t, op);
  }

  lemma CountsUntouched(chain: seq<Block>, s: State, e: Event, h: nat)
    requires ValidChain(chain) && WellFormed(chain, s) && Inv(chain, s) && Enabled(chain, s, e) && h < |chain|
    requires !e.Delete? && !(e.Fetch? && e.readable)
    ensures var t := Apply(chain, s, e);
      Removed(chain, s, h) == Removed(chain, t, h) && HasStored(s, h) == HasStored(t, h)
  {
    hide Spent, Attach, Lookup, SequentialBlock, AnswersAreOrigins, ValidChain, Inv, Insert, Remove;
    if e.Finish? {
      FinishSound(chain, s, e.height);
    } else if e.Claim? {
      SoundAt(chain, s, s.claimed);
    }
  }

  lemma StepAccounts(chain: seq<Block>, s: State, e: Event, op: OutPoint)
    requires ValidChain(chain) && Inv(chain, s) && Enabled(chain, s, e)
    ensures StoreIsAccounted(chain, Apply(chain, s, e), op)
  {
    hide *;
    if e.Delete? {
      DeleteAccounts(chain, s, e.height, op);
    } else if e.Fetch? && e.readable {
      FetchAccounts(chain, s, e.height, op);
    } else {
      OtherStepAccounts(chain, s, e, op);
    }
  }

  /** A job that a step leaves alone stays sound: claims and hand-overs only go up. */
  lemma UntouchedIsSound(chain: seq<Block>, s: State, t: State, h: nat)
    requires WellFormed(chain, s) && WellFormed(chain, t) && h < |chain| && JobIsSound(chain, s, h)
    requires t.jobs[h] == s.jobs[h]
    requires s.claimed <= t.claimed && (t.jobs[h].Waiting? ==> h >= t.claimed)
    requires s.handed <= t.handed && (t.jobs[h].Fetching? || t.jobs[h].Unreadable? || t.jobs[h].Stored? ==> h >= t.handed)
    ensures JobIsSound(chain, t, h)
  {
  }

  lemma ReadIsSound(chain: seq<Block>, s: State, h: nat)
    requires ValidChain(chain) && Inv(chain, s) && Enabled(chain, s, Read(h))
    ensures JobIsSound(chain, Apply(chain, s, Read(h)), h)
  {
    SoundAt(chain, s, h);
    PendingInputIsInStore(chain, s, h, |s.jobs[h].answers|);
    hide ValidChain, Inv, Spent;
  }

  lemma StepJobs(chain: seq<Block>, s: State, e: Event, h: nat)
    requires ValidChain(chain) && WellFormed(chain, s) && Inv(chain, s) && Enabled(chain, s, e) && h < |chain|
    ensures JobIsSound(chain, Apply(chain, s, e), h)
  {
    hide ValidChain, Inv, SequentialBlock, Insert, Remove, Attach, AnswersAreOrigins, Spent, Lookup;
    SoundAt(chain, s, h);
    if s.handed < |chain| {
      SoundAt(chain, s, s.handed);
    }
    if Apply(chain, s, e).jobs[h] == s.jobs[h] {
      UntouchedIsSound(chain, s, Apply(chain, s, e), h);
    } else if e.Read? {
      ReadIsSound(chain, s, h);
    } else if e.Finish? {
      FinishSound(chain, s, h);
    } else if e.HandOver? {
      NoAnswersAreOrigins(chain, h);
    }
  }

  lemma NoAnswersAreOrigins(chain: seq<Block>, h: nat)
    requires h < |chain|
    ensures AnswersAreOrigins(chain, h, [])
  {
  }

  lemma SoundAt(chain: seq<Block>, s: State, h: nat)
    requires Inv(chain, s) && h < |chain|
    ensures WellFormed(chain, s) && JobIsSound(chain, s, h) && s.handed <= s.claimed
  {
  }

  /** Emitted blocks stay, and the next one is that of its job. */
  lemma StepEmitted(chain: seq<Block>, s: State, e: Event, h: nat)
    requires Inv(chain, s) && Enabled(chain, s, e) && h < |Apply(chain, s, e).emitted|
    ensures var t := Apply(chain, s, e);
      h < |t.jobs| && t.jobs[h] == Connected(t.emitted[h])
  {
    assert s.claimed < |chain| ==> JobIsSound(chain, s, s.claimed);
    assert s.handed < |chain| ==> JobIsSound(chain, s, s.handed);
    hide Inv, AnswersAreOrigins, SequentialBlock, Insert, Remove, Attach, Spent;
    if h < |s.emitted| {
      EmittedJobAt(chain, s, h);
    }
  }

  lemma EmittedJobAt(chain: seq<Block>, s: State, h: nat)
    requires Inv(chain, s) && h < |s.emitted|
    ensures h < |s.jobs| && s.jobs[h] == Connected(s.emitted[h])
  {
  }

  lemma StepOrder(chain: seq<Block>, s: State, e: Event)
    requires Inv(chain, s) && Enabled(chain, s, e)
    ensures Apply(chain, s, e).handed <= Apply(chain, s, e).claimed
  {
    assert s.handed < |chain| ==> JobIsSound(chain, s, s.handed);
    hide Insert, Remove, Attach, Spent;
  }

  lemma StepInv(chain: seq<Block>, s: State, e: Event)
    requires ValidChain(chain) && Inv(chain, s) && Enabled(chain, s, e)
    ensures Inv(chain, Apply(chain, s, e))
  {
    var t := Apply(chain, s, e);
    assert WellFormed(chain, s) && WellFormed(chain, t);
    hide ValidChain, Apply, Enabled, JobIsSound, StoreIsAccounted;
    StepOrder(chain, s, e);
    forall h | 0 <= h < |chain| ensures JobIsSound(chain, t, h) {
      StepJobs(chain, s, e, h);
    }
    forall op ensures StoreIsAccounted(chain, t, op) {
      StepAccounts(chain, s, e, op);
    }
    forall h | 0 <= h < |t.emitted| ensures t.jobs[h].Connected? && t.jobs[h].block == t.emitted[h] {
      StepEmitted(chain, s, e, h);
    }
  }

  lemma {:induction false} RunInv(chain: seq<Block>, es: seq<Event>)
    requires ValidChain(chain) && Run(chain, Start(chain), es).Some?
    ensures Inv(chain, Run(chain, Start(chain), es).value)
  {
    if es == [] {
      StartInv(chain);
    } else {
      RunInv(chain, es[..|es| - 1]);
      StepInv(chain, Run(chain, Start(chain), es[..|es| - 1]).value, es[|es| - 1]);
    }
  }

  lemma ReachableInv(chain: seq<Block>, s: State)
    requires ValidChain(chain) && Reachable(chain, s)
    ensures Inv(chain, s)
  {
    var es :| Run(chain, Start(chain), es) == Some(s);
    RunInv(chain, es);
  }

  // ---------- what holds of every run ----------

  /** Whatever the schedule, the blocks emitted so far are those of the sequential run, in
      order, and no worker was left without an output it asked for. */
  lemma EmittedIsSequential(chain: seq<Block>, s: State)
    requires ValidChain(chain) && Reachable(chain, s)
    ensures |s.jobs| == |chain| && |s.emitted| <= |chain|
    ensures forall h :: 0 <= h < |s.emitted| ==> Some(s.emitted[h]) == SequentialBlock(chain, h)
    ensures forall h :: 0 <= h < |chain| ==> !s.jobs[h].Rejected?
  {
    ReachableInv(chain, s);
    forall h | 0 <= h < |s.emitted|
      ensures Some(s.emitted[h]) == SequentialBlock(chain, h)
    {
      EmittedAt(chain, s, h);
    }
    forall h | 0 <= h < |chain|
      ensures !s.jobs[h].Rejected?
    {
      assert JobIsSound(chain, s, h);
    }
  }

  lemma EmittedAt(chain: seq<Block>, s: State, h: nat)
    requires Inv(chain, s) && h < |s.emitted|
    ensures Some(s.emitted[h]) == SequentialBlock(chain, h)
  {
    assert JobIsSound(chain, s, h);
  }

  /** The order in which the on-disk version works: all keys are read before the first is
      deleted, and the answers are looked at when all keys are deleted. */
  predicate OnDiskOrder(chain: seq<Block>, s: State, e: Event)
    requires WellFormed(chain, s)
  {
    && Enabled(chain, s, e)
    && (e.Delete? ==> |s.jobs[e.height].answers| == |Spent(chain, e.height)|)
    && (e.Finish? ==> |s.jobs[e.height].answers| == s.jobs[e.height].removed == |Spent(chain, e.height)|)
  }

  /** A worker in flight always has a step to take. */
  lemma InFlightMoves(chain: seq<Block>, s: State, h: nat)
    requires Inv(chain, s) && InFlight(chain, s, h)
    ensures OnDiskOrder(chain, s, Read(h)) || OnDiskOrder(chain, s, Delete(h)) || OnDiskOrder(chain, s, Finish(h))
  {
    assert JobIsSound(chain, s, h);
  }

  /** Once a height is unreadable, the first stage may leave the heights after it alone. */
  predicate Abandonable(s: State, e: Event) {
    match e
    case Claim => exists k :: 0 <= k < |s.jobs| && s.jobs[k].Unreadable?
    case Fetch(h, _) => exists k :: 0 <= k < h && k < |s.jobs| && s.jobs[k].Unreadable?
    case _ => false
  }

  /** No step is left but those that may be left undone. */
  ghost predicate Finished(chain: seq<Block>, s: State) {
    WellFormed(chain, s) && forall e :: OnDiskOrder(chain, s, e) ==> Abandonable(s, e)
  }

  /** In a finished state, the next height to hand over is unreadable. */
  lemma HandOverIsBlocked(chain: seq<Block>, s: State)
    requires Inv(chain, s) && Finished(chain, s) && s.handed < |chain|
    ensures s.jobs[s.handed].Unreadable?
  {
    var h := s.handed;
    SoundAt(chain, s, h);
    assert OnDiskOrder(chain, s, HandOver) ==> Abandonable(s, HandOver);
    assert OnDiskOrder(chain, s, Claim) ==> Abandonable(s, Claim);
    assert OnDiskOrder(chain, s, Fetch(h, false)) ==> Abandonable(s, Fetch(h, false));
    hide Inv, Finished;
    forall k | 0 <= k < |chain| && s.jobs[k].Unreadable? ensures h <= k < s.claimed {
      SoundAt(chain, s, k);
    }
  }

  lemma HandedIsConnected(chain: seq<Block>, s: State, h: nat)
    requires Inv(chain, s) && Finished(chain, s) && h < s.handed
    ensures s.jobs[h].Connected?
  {
    SoundAt(chain, s, h);
    assert OnDiskOrder(chain, s, Read(h)) ==> Abandonable(s, Read(h));
    assert OnDiskOrder(chain, s, Delete(h)) ==> Abandonable(s, Delete(h));
    assert OnDiskOrder(chain, s, Finish(h)) ==> Abandonable(s, Finish(h));
    if InFlight(chain, s, h) {
      InFlightMoves(chain, s, h);
    }
  }

  /** A finished run has emitted everything up to the first unreadable height. */
  lemma StuckRunIsComplete(chain: seq<Block>, s: State)
    requires Inv(chain, s) && Finished(chain, s)
    ensures |s.emitted| < |chain| ==> s.jobs[|s.emitted|].Unreadable?
    ensures forall h :: 0 <= h < |s.emitted| ==> s.jobs[h].Connected?
  {
    assert OnDiskOrder(chain, s, Emit) ==> Abandonable(s, Emit);
    var n := |s.emitted|;
    if n < |chain| {
      if n < s.handed {
        HandedIsConnected(chain, s, n);
      } else {
        HandOverIsBlocked(chain, s);
      }
    }
  }

  // ---------- every run is finite ----------

  function Less(a: nat, b: nat): nat {
    if a < b then b - a else 0
  }

  /** How many steps a job has yet to take, at most. */
  function Rank(j: Job, inputs: nat): nat {
    match j
    case Waiting => 2 * inputs + 4
    case Fetching => 2 * inputs + 3
    case Stored => 2 * inputs + 2
    case Connecting(answers, removed) => Less(|answers|, inputs) + Less(removed, inputs) + 1
    case _ => 0
  }

  function Ranks(chain: seq<Block>, jobs: seq<Job>): nat
    requires |jobs| == |chain|
  {
    if jobs == [] then 0
    else
      var n := |jobs| - 1;
      Ranks(chain[..n], jobs[..n]) + Rank(jobs[n], |Spent(chain, n)|)
  }

  function Measure(chain: seq<Block>, s: State): nat
    requires WellFormed(chain, s)
  {
    Ranks(chain, s.jobs) + (|chain| - |s.emitted|)
  }

  lemma {:induction false} RanksOfUpdate(chain: seq<Block>, jobs: seq<Job>, h: nat, j: Job)
    requires |jobs| == |chain| && h < |chain|
    ensures Ranks(chain, jobs[h := j])
         == Ranks(chain, jobs) - Rank(jobs[h], |Spent(chain, h)|) + Rank(j, |Spent(chain, h)|)
  {
    var n := |jobs| - 1;
    if h == n {
      assert jobs[h := j][..n] == jobs[..n];
    } else {
      assert jobs[h := j][..n] == jobs[..n][h := j];
      RanksOfUpdate(chain[..n], jobs[..n], h, j);
    }
  }

  /** The height an event works on. */
  function Touched(s: State, e: Event): int {
    match e
    case Claim => s.claimed
    case Fetch(h, _) => h
    case HandOver => s.handed
    case Read(h) => h
    case Delete(h) => h
    case Finish(h) => h
    case Emit => -1
  }

  lemma StepDecreases(chain: seq<Block>, s: State, e: Event)
    requires Inv(chain, s) && Enabled(chain, s, e)
    ensures Measure(chain, Apply(chain, s, e)) < Measure(chain, s)
  {
    var h := Touched(s, e);
    if h >= 0 {
      var t := Apply(chain, s, e);
      assert JobIsSound(chain, s, h);
      assert t.jobs == s.jobs[h := t.jobs[h]];
      RanksOfUpdate(chain, s.jobs, h, t.jobs[h]);
      assert Rank(t.jobs[h], |Spent(chain, h)|) < Rank(s.jobs[h], |Spent(chain, h)|);
    }
  }

  /** No schedule is longer than the measure of the start state: every run comes to an end. */
  lemma {:induction false} RunsAreBounded(chain: seq<Block>, es: seq<Event>)
    requires ValidChain(chain) && Run(chain, Start(chain), es).Some?
    ensures |es| + Measure(chain, Run(chain, Start(chain), es).value) <= Measure(chain, Start(chain))
  {
    if es == [] {
    } else {
      var before := es[..|es| - 1];
      RunsAreBounded(chain, before);
      RunInv(chain, before);
      StepDecreases(chain, Run(chain, Start(chain), before).value, es[|es| - 1]);
    }
  }

  /** Together: however the workers are scheduled, once nothing more has to happen the emitted
      list is the sequential result, cut off before the first height that could not be read. */
  lemma FinishedRunIsSequential(chain: seq<Block>, s: State)
    requires ValidChain(chain) && Reachable(chain, s) && Finished(chain, s)
    ensures |s.emitted| < |chain| ==> s.jobs[|s.emitted|].Unreadable?
    ensures forall h :: 0 <= h < |s.emitted| ==>
      !s.jobs[h].Unreadable? && Some(s.emitted[h]) == SequentialBlock(chain, h)
  {
    ReachableInv(chain, s);
    StuckRunIsComplete(chain, s);
    EmittedIsSequential(chain, s);
  }

  lemma RunFrom(chain: seq<Block>, s: State, e: Event, es: seq<Event>)
    requires WellFormed(chain, s) && Enabled(chain, s, e)
    ensures Run(chain, s, [e] + es) == Run(chain, Apply(chain, s, e), es)
  {
    hide Enabled, Apply;
    assert [e][..0] == [];
    assert Run(chain, s, []) == Some(s);
    assert Run(chain, s, [e]) == Some(Apply(chain, s, e));
    RunConcat(chain, s, [e], es);
  }

  /** Wherever a run has come, it can be brought to its end. */
  lemma {:induction false} FinishedIsReachable(chain: seq<Block>, s: State) returns (es: seq<Event>, t: State)
    requires ValidChain(chain) && Inv(chain, s) && WellFormed(chain, s)
    ensures Run(chain, s, es) == Some(t) && Finished(chain, t)
    decreases Measure(chain, s)
  {
    if Finished(chain, s) {
      es, t := [], s;
    } else {
      var e :| OnDiskOrder(chain, s, e) && !Abandonable(s, e);
      StepInv(chain, s, e);
      StepDecreases(chain, s, e);
      hide ValidChain, Inv, Measure, Finished, Enabled, Apply;
      var fs: seq<Event>;
      fs, t := FinishedIsReachable(chain, Apply(chain, s, e));
      RunFrom(chain, s, e, fs);
      es := [e] + fs;
    }
  }
}
