/**
 The pipeline over the in-memory store, cut at every lock.

 `keys` is the locked map from txid to a shared, separately locked slot array; `heap` holds
 the arrays themselves, which live on in a worker's hands after their key is dropped. A
 worker looks a txid up, then takes a slot and tests whether any is left, then drops the
 key; other workers step in between at will.
 */
module InMemPipeline {
  import opened Wrappers
  import opened Chain
  import opened FlatStore
  import VecMap
  import P = Pipeline

  /** Where a second-stage worker stands at its current input. */
  datatype Phase =
    | AtInput
    | Holding(id: nat)
    | MustDrop(id: nat, out: Option<TxOut>)

  datatype Job =
    | Waiting
    | Fetching
    | Unreadable
    | Stored
    | Connecting(taken: seq<TxOut>, phase: Phase)
    | Connected(block: ConnectedBlock)
    | Rejected(removed: nat)

  /** One shared slot array, and the transaction whose outputs it was filled with. */
  datatype Cell = Cell(txid: Txid, slots: VecMap.Slots<TxOut>)

  datatype State = State(
    jobs: seq<Job>, heap: seq<Cell>, keys: map<Txid, nat>,
    claimed: nat, handed: nat, emitted: seq<ConnectedBlock>)

  datatype Event =
    | Claim
    | Fetch(height: nat, readable: bool)
    | HandOver
    | LookUp(height: nat)
    | TakeSlot(height: nat)
    | DropKey(height: nat)
    | Finish(height: nat)
    | Emit

  function Start(chain: seq<Block>): State {
    State(seq(|chain|, _ => Waiting), [], map[], 0, 0, [])
  }

  function NewCell(tx: Tx): Cell {
    Cell(tx.txid, VecMap.NewSlots(seq(|tx.outputs|, i requires 0 <= i < |tx.outputs| => Some(tx.outputs[i]))))
  }

  function NewCells(txs: seq<Tx>): (r: seq<Cell>)
    ensures |r| == |txs|
    ensures forall j :: 0 <= j < |txs| ==> r[j] == NewCell(txs[j])
  {
    Map(txs, tx => NewCell(tx))
  }

  /** The keys under which the new arrays, placed from `base` on, are entered. */
  function NewKeys(txs: seq<Tx>, base: nat): map<Txid, nat> {
    if txs == [] then map[]
    else NewKeys(txs[..|txs| - 1], base)[txs[|txs| - 1].txid := base + |txs| - 1]
  }

  predicate WellFormed(chain: seq<Block>, s: State) {
    && |s.jobs| == |chain| && s.claimed <= |chain| && s.handed <= |chain| && |s.emitted| <= |chain|
    && (forall h :: 0 <= h < |chain| && s.jobs[h].Connecting? && !s.jobs[h].phase.AtInput? ==>
          |s.jobs[h].taken| < |Spent(chain, h)| && s.jobs[h].phase.id < |s.heap|)
  }

  predicate InFlight(chain: seq<Block>, s: State, h: nat)
    requires |s.jobs| == |chain|
  {
    h < |chain| && s.jobs[h].Connecting?
  }

  /** The outpoint a worker in flight is about to spend. */
  function Current(chain: seq<Block>, s: State, h: nat): OutPoint
    requires |s.jobs| == |chain| && InFlight(chain, s, h) && |s.jobs[h].taken| < |Spent(chain, h)|
  {
    Spent(chain, h)[|s.jobs[h].taken|]
  }

  predicate Enabled(chain: seq<Block>, s: State, e: Event)
    requires WellFormed(chain, s)
  {
    match e
    case Claim => s.claimed < |chain|
    case Fetch(h, _) => h < |chain| && s.jobs[h].Fetching?
    case HandOver => s.handed < |chain| && s.jobs[s.handed].Stored?
    case LookUp(h) => InFlight(chain, s, h) && s.jobs[h].phase.AtInput? && |s.jobs[h].taken| < |Spent(chain, h)|
    case TakeSlot(h) => InFlight(chain, s, h) && s.jobs[h].phase.Holding?
    case DropKey(h) => InFlight(chain, s, h) && s.jobs[h].phase.MustDrop?
    case Finish(h) => InFlight(chain, s, h) && s.jobs[h].phase.AtInput? && |s.jobs[h].taken| == |Spent(chain, h)|
    case Emit => |s.emitted| < |chain| && s.jobs[|s.emitted|].Connected?
  }

  /** What becomes of a worker when its slot turned out to hold `out`. */
  function AfterSlot(taken: seq<TxOut>, out: Option<TxOut>): Job {
    if out.Some? then Connecting(taken + [out.value], AtInput) else Rejected(|taken|)
  }

  function DoFetch(chain: seq<Block>, s: State, h: nat): State
    requires WellFormed(chain, s) && h < |chain|
  {
    var txs := chain[h].txdata;
    s.(jobs := s.jobs[h := Stored], heap := s.heap + NewCells(txs), keys := s.keys + NewKeys(txs, |s.heap|))
  }

  function DoLookUp(chain: seq<Block>, s: State, h: nat): State
    requires WellFormed(chain, s) && Enabled(chain, s, LookUp(h))
  {
    var j, txid := s.jobs[h], Current(chain, s, h).txid;
    s.(jobs := s.jobs[h :=
      if txid in s.keys && s.keys[txid] < |s.heap| then j.(phase := Holding(s.keys[txid])) else Rejected(|j.taken|)])
  }

  function DoTakeSlot(chain: seq<Block>, s: State, h: nat): State
    requires WellFormed(chain, s) && Enabled(chain, s, TakeSlot(h))
  {
    var j := s.jobs[h];
    var id, cell := j.phase.id, s.heap[j.phase.id];
    var (out, slots) := VecMap.TakeSlot(cell.slots, Current(chain, s, h).vout);
    s.(heap := s.heap[id := cell.(slots := slots)],
       jobs := s.jobs[h :=
         if VecMap.NoSlotLeft(slots) then j.(phase := MustDrop(id, out)) else AfterSlot(j.taken, out)])
  }

  function DoDropKey(chain: seq<Block>, s: State, h: nat): State
    requires WellFormed(chain, s) && Enabled(chain, s, DropKey(h))
  {
    var j := s.jobs[h];
    s.(keys := s.keys - {Current(chain, s, h).txid}, jobs := s.jobs[h := AfterSlot(j.taken, j.phase.out)])
  }

  function Apply(chain: seq<Block>, s: State, e: Event): (r: State)
    requires WellFormed(chain, s) && Enabled(chain, s, e)
    ensures WellFormed(chain, r)
  {
    match e
    case Claim => s.(jobs := s.jobs[s.claimed := Fetching], claimed := s.claimed + 1)
    case Fetch(h, readable) => if readable then DoFetch(chain, s, h) else s.(jobs := s.jobs[h := Unreadable])
    case HandOver => s.(jobs := s.jobs[s.handed := Connecting([], AtInput)], handed := s.handed + 1)
    case LookUp(h) => DoLookUp(chain, s, h)
    case TakeSlot(h) => DoTakeSlot(chain, s, h)
    case DropKey(h) => DoDropKey(chain, s, h)
    case Finish(h) =>
      s.(jobs := s.jobs[h := Connected(ConnectedBlock(chain[h].header, Assemble(chain[h].txdata, s.jobs[h].taken)))])
    case Emit => s.(emitted := s.emitted + [s.jobs[|s.emitted|].block])
  }

  function Run(chain: seq<Block>, s: State, es: seq<Event>): (r: Option<State>)
    requires WellFormed(chain, s)
    ensures r.Some? ==> WellFormed(chain, r.value)
  {
    if es == [] then Some(s)
    else
      var before :- Run(chain, s, es[..|es| - 1]);
      if Enabled(chain, before, es[|es| - 1]) then Some(Apply(chain, before, es[|es| - 1])) else None
  }

  ghost predicate Reachable(chain: seq<Block>, s: State) {
    exists es :: Run(chain, Start(chain), es) == Some(s)
  }

  // ---------- the invariant of the slot arrays ----------

  predicate HasStored(s: State, h: nat)
    requires h < |s.jobs|
  {
    !s.jobs[h].Waiting? && !s.jobs[h].Fetching? && !s.jobs[h].Unreadable?
  }

  /** Keys lead to the array of their transaction. */
  ghost predicate KeysLead(s: State) {
    forall t :: t in s.keys ==> s.keys[t] < |s.heap| && s.heap[s.keys[t]].txid == t
  }

  /** No two arrays belong to one transaction. */
  ghost predicate OneArrayEach(s: State) {
    forall i, j :: 0 <= i < j < |s.heap| ==> s.heap[i].txid != s.heap[j].txid
  }

  /** The array counts its slots right, and is in the map unless all its slots are taken. */
  ghost predicate CellOk(s: State, i: nat)
    requires i < |s.heap|
  {
    && VecMap.Counted(s.heap[i].slots)
    && ((s.heap[i].txid in s.keys && s.keys[s.heap[i].txid] == i) || VecMap.AllTaken(s.heap[i].slots.inner))
  }

  ghost predicate HasTx(b: Block, t: Txid) {
    exists j :: 0 <= j < |b.txdata| && b.txdata[j].txid == t
  }

  /** Every array comes from a block the first stage has stored. */
  ghost predicate CellHasOrigin(chain: seq<Block>, s: State, i: nat)
    requires |s.jobs| == |chain| && i < |s.heap|
  {
    exists h :: 0 <= h < |chain| && HasStored(s, h) && HasTx(chain[h], s.heap[i].txid)
  }

  /** A worker holds the array of its current input; one that must drop a key saw it empty. */
  ghost predicate WorkerOk(chain: seq<Block>, s: State, h: nat)
    requires |s.jobs| == |chain| && h < |chain|
  {
    s.jobs[h].Connecting? ==>
      && |s.jobs[h].taken| <= |Spent(chain, h)|
      && (!s.jobs[h].phase.AtInput? ==>
            && |s.jobs[h].taken| < |Spent(chain, h)| && s.jobs[h].phase.id < |s.heap|
            && s.heap[s.jobs[h].phase.id].txid == Current(chain, s, h).txid)
      && (s.jobs[h].phase.MustDrop? ==> VecMap.AllTaken(s.heap[s.jobs[h].phase.id].slots.inner))
  }

  ghost predicate Inv(chain: seq<Block>, s: State) {
    && WellFormed(chain, s)
    && KeysLead(s) && OneArrayEach(s)
    && (forall h :: s.claimed <= h < |chain| ==> s.jobs[h].Waiting?)
    && (forall i :: 0 <= i < |s.heap| ==> CellOk(s, i))
    && (forall i :: 0 <= i < |s.heap| ==> CellHasOrigin(chain, s, i))
    && (forall h :: 0 <= h < |chain| ==> WorkerOk(chain, s, h))
  }

  // ---------- the flat pipeline it implements ----------

  /** A worker seen from the flat store: a slot just taken is an answer already deleted. */
  function FlatJob(j: Job): P.Job {
    match j
    case Waiting => P.Waiting
    case Fetching => P.Fetching
    case Unreadable => P.Unreadable
    case Stored => P.Stored
    case Connecting(taken, MustDrop(_, Some(o))) => P.Connecting(Somes(taken) + [Some(o)], |taken| + 1)
    case Connecting(taken, MustDrop(_, None)) => P.Connecting(Somes(taken) + [None], |taken|)
    case Connecting(taken, _) => P.Connecting(Somes(taken), |taken|)
    case Connected(b) => P.Connected(b)
    case Rejected(n) => P.Rejected(n)
  }

  function FlatJobs(jobs: seq<Job>): (r: seq<P.Job>)
    ensures |r| == |jobs|
    ensures forall h :: 0 <= h < |jobs| ==> r[h] == FlatJob(jobs[h])
  {
    Map(jobs, j => FlatJob(j))
  }

  /** What the map and the arrays together hold at an outpoint. */
  function SlotAt(keys: map<Txid, nat>, heap: seq<Cell>, op: OutPoint): Option<TxOut> {
    if op.txid in keys && keys[op.txid] < |heap| then VecMap.TakeSlot(heap[keys[op.txid]].slots, op.vout).0 else None
  }

  ghost predicate StoreMatches(s: State, store: Store, op: OutPoint) {
    Lookup(store, op) == SlotAt(s.keys, s.heap, op)
  }

  /** The flat state `p` is what `s` amounts to. */
  ghost predicate Implements(s: State, p: P.State) {
    && p.jobs == FlatJobs(s.jobs)
    && p.claimed == s.claimed && p.handed == s.handed && p.emitted == s.emitted
    && (forall op :: StoreMatches(s, p.store, op))
  }

  lemma JobUpdate(jobs: seq<Job>, h: nat, j: Job)
    requires h < |jobs|
    ensures FlatJobs(jobs[h := j]) == FlatJobs(jobs)[h := FlatJob(j)]
  {
  }

  // ---------- first-stage steps ----------

  lemma {:induction false} NewKeysMeaning(txs: seq<Tx>, base: nat, t: Txid)
    ensures t in NewKeys(txs, base) <==> exists j :: 0 <= j < |txs| && txs[j].txid == t
    ensures t in NewKeys(txs, base) ==>
      base <= NewKeys(txs, base)[t] < base + |txs| && txs[NewKeys(txs, base)[t] - base].txid == t
  {
    if txs == [] {
    } else {
      var before, last := txs[..|txs| - 1], txs[|txs| - 1];
      NewKeysMeaning(before, base, t);
      if t == last.txid {
        assert txs[|txs| - 1].txid == t;
      } else if t in NewKeys(before, base) {
        var j :| 0 <= j < |before| && before[j].txid == t;
        assert txs[j] == before[j];
      }
    }
  }

  /** A transaction still to be stored has no array yet. */
  lemma FreshTx(chain: seq<Block>, s: State, h: nat, j: nat, i: nat)
    requires UniqueTxids(chain) && Inv(chain, s) && h < |chain| && !HasStored(s, h)
    requires j < |chain[h].txdata| && i < |s.heap|
    ensures s.heap[i].txid != chain[h].txdata[j].txid
  {
    assert CellHasOrigin(chain, s, i);
    var k :| 0 <= k < |chain| && HasStored(s, k) && HasTx(chain[k], s.heap[i].txid);
    var l :| 0 <= l < |chain[k].txdata| && chain[k].txdata[l].txid == s.heap[i].txid;
  }

  lemma NewCellOccupied(tx: Tx)
    ensures VecMap.Counted(NewCell(tx).slots)
    ensures forall n: nat :: VecMap.TakeSlot(NewCell(tx).slots, n).0
                          == if n < |tx.outputs| then Some(tx.outputs[n]) else None
  {
    VecMap.FromVecCountsIff(NewCell(tx).slots.inner);
  }

  /** A txid the block brings: its array is new, and holds the outputs of the transaction. */
  lemma FetchNewTxid(chain: seq<Block>, s: State, h: nat, op: OutPoint)
    requires UniqueTxids(chain) && Inv(chain, s) && h < |chain| && !HasStored(s, h)
    requires op.txid in NewKeys(chain[h].txdata, |s.heap|)
    ensures var t := DoFetch(chain, s, h);
      op.txid !in s.keys && SlotAt(t.keys, t.heap, op) == Lookup(Outputs(chain[h].txdata), op)
  {
    var txs, t := chain[h].txdata, DoFetch(chain, s, h);
    NewKeysMeaning(txs, |s.heap|, op.txid);
    BlockTxidsDistinct(chain, h);
    var j := t.keys[op.txid] - |s.heap|;
    assert t.heap[t.keys[op.txid]] == NewCell(txs[j]);
    if op.txid in s.keys {
      assert KeysLead(s);
      FreshTx(chain, s, h, j, s.keys[op.txid]);
    }
    hide Inv, UniqueTxids, NewKeys, DoFetch;
    NewCellOccupied(txs[j]);
    OutputOfTxid(txs, j, op);
  }

  lemma OutputOfTxid(txs: seq<Tx>, j: nat, op: OutPoint)
    requires DistinctTxids(txs) && j < |txs| && txs[j].txid == op.txid
    ensures Lookup(Outputs(txs), op) == if op.vout < |txs[j].outputs| then Some(txs[j].outputs[op.vout]) else None
  {
    OutputsKeys(txs, op);
    if op.vout < |txs[j].outputs| {
      OutputsValue(txs, j, op);
    }
    hide Outputs;
  }

  /** Any other txid keeps its array. */
  lemma FetchOldTxid(chain: seq<Block>, s: State, h: nat, op: OutPoint)
    requires Inv(chain, s) && h < |chain| && op.txid !in NewKeys(chain[h].txdata, |s.heap|)
    ensures var t := DoFetch(chain, s, h);
      op !in Outputs(chain[h].txdata) && SlotAt(t.keys, t.heap, op) == SlotAt(s.keys, s.heap, op)
  {
    var txs := chain[h].txdata;
    NewKeysMeaning(txs, |s.heap|, op.txid);
    OutputsKeys(txs, op);
    assert KeysLead(s);
    hide Inv, Outputs, NewKeys;
  }

  lemma FetchStore(chain: seq<Block>, s: State, h: nat, store: Store, op: OutPoint)
    requires UniqueTxids(chain) && Inv(chain, s) && h < |chain| && !HasStored(s, h)
    requires StoreMatches(s, store, op)
    ensures StoreMatches(DoFetch(chain, s, h), Insert(store, chain[h]), op)
  {
    if op.txid in NewKeys(chain[h].txdata, |s.heap|) {
      FetchNewTxid(chain, s, h, op);
    } else {
      FetchOldTxid(chain, s, h, op);
    }
    hide UniqueTxids, Inv, DoFetch, NewKeys, Outputs;
  }

  lemma FetchCells(chain: seq<Block>, s: State, h: nat, i: nat)
    requires UniqueTxids(chain) && Inv(chain, s) && h < |chain| && s.jobs[h].Fetching?
    requires i < |DoFetch(chain, s, h).heap|
    ensures CellOk(DoFetch(chain, s, h), i) && CellHasOrigin(chain, DoFetch(chain, s, h), i)
  {
    var txs := chain[h].txdata;
    var t := DoFetch(chain, s, h);
    NewKeysMeaning(txs, |s.heap|, t.heap[i].txid);
    if i < |s.heap| {
      assert t.heap[i] == s.heap[i];
      assert CellOk(s, i) && CellHasOrigin(chain, s, i);
      var k :| 0 <= k < |chain| && HasStored(s, k) && HasTx(chain[k], s.heap[i].txid);
      assert HasStored(t, k);
    } else {
      var j := i - |s.heap|;
      assert t.heap[i] == NewCell(txs[j]);
      NewCellOccupied(txs[j]);
      assert HasTx(chain[h], t.heap[i].txid) && HasStored(t, h);
      BlockTxidsDistinct(chain, h);
    }
  }

  lemma FetchKeysLead(chain: seq<Block>, s: State, h: nat)
    requires Inv(chain, s) && h < |chain|
    ensures KeysLead(DoFetch(chain, s, h))
  {
    var t := DoFetch(chain, s, h);
    assert KeysLead(s);
    hide Inv, NewKeys;
    forall x | x in t.keys ensures t.keys[x] < |t.heap| && t.heap[t.keys[x]].txid == x {
      NewKeysMeaning(chain[h].txdata, |s.heap|, x);
    }
  }

  lemma FetchArraysDiffer(chain: seq<Block>, s: State, h: nat)
    requires UniqueTxids(chain) && Inv(chain, s) && h < |chain| && s.jobs[h].Fetching?
    ensures OneArrayEach(DoFetch(chain, s, h))
  {
    var t := DoFetch(chain, s, h);
    BlockTxidsDistinct(chain, h);
    assert OneArrayEach(s);
    hide UniqueTxids, Inv, NewKeys;
    forall i, j | 0 <= i < j < |t.heap| ensures t.heap[i].txid != t.heap[j].txid {
      if i < |s.heap| <= j {
        FreshTx(chain, s, h, j - |s.heap|, i);
      }
    }
  }

  lemma FetchInv(chain: seq<Block>, s: State, h: nat)
    requires UniqueTxids(chain) && Inv(chain, s) && h < |chain| && s.jobs[h].Fetching?
    ensures Inv(chain, DoFetch(chain, s, h))
  {
    var t := DoFetch(chain, s, h);
    FetchKeysLead(chain, s, h);
    FetchArraysDiffer(chain, s, h);
    hide UniqueTxids, CellOk, CellHasOrigin, KeysLead, OneArrayEach, NewKeys, Spent;
    forall i | 0 <= i < |t.heap| ensures CellOk(t, i) && CellHasOrigin(chain, t, i) {
      FetchCells(chain, s, h, i);
    }
    forall k | 0 <= k < |chain| ensures WorkerOk(chain, t, k) {
      assert WorkerOk(chain, s, k);
    }
  }

  // ---------- second-stage steps ----------

  /** While an output is in its slot, the map still leads to the array a worker holds. */
  lemma HeldArrayIsKeyed(chain: seq<Block>, s: State, op: OutPoint, id: nat)
    requires Inv(chain, s) && id < |s.heap| && s.heap[id].txid == op.txid
    ensures SlotAt(s.keys, s.heap, op) == VecMap.TakeSlot(s.heap[id].slots, op.vout).0
  {
    assert CellOk(s, id);
  }

  lemma TakeSlotStore(chain: seq<Block>, s: State, h: nat, store: Store, op: OutPoint)
    requires Inv(chain, s) && Enabled(chain, s, TakeSlot(h))
    requires StoreMatches(s, store, op)
    ensures StoreMatches(DoTakeSlot(chain, s, h), Remove(store, [Current(chain, s, h)]), op)
  {
    var cur, id := Current(chain, s, h), s.jobs[h].phase.id;
    assert WorkerOk(chain, s, h);
    var t := DoTakeSlot(chain, s, h);
    VecMap.RemovedOnce(s.heap[id].slots, cur.vout);
    if op.txid in s.keys {
      assert KeysLead(s);
      if s.keys[op.txid] == id {
        assert op.txid == cur.txid;
      } else {
        assert t.heap[s.keys[op.txid]] == s.heap[s.keys[op.txid]];
      }
    }
  }

  lemma TakeSlotInv(chain: seq<Block>, s: State, h: nat)
    requires Inv(chain, s) && Enabled(chain, s, TakeSlot(h))
    ensures Inv(chain, DoTakeSlot(chain, s, h))
  {
    var t, id := DoTakeSlot(chain, s, h), s.jobs[h].phase.id;
    assert WorkerOk(chain, s, h);
    VecMap.RemovalKeepsCount(s.heap[id].slots, Current(chain, s, h).vout) by { assert CellOk(s, id); }
    assert forall i :: 0 <= i < |s.heap| ==> t.heap[i].txid == s.heap[i].txid;
    assert forall k :: 0 <= k < |chain| ==> HasStored(t, k) == HasStored(s, k);
    forall i | 0 <= i < |t.heap| ensures CellOk(t, i) && CellHasOrigin(chain, t, i) {
      assert CellOk(s, i) && CellHasOrigin(chain, s, i);
    }
    forall k | 0 <= k < |chain| ensures WorkerOk(chain, t, k) {
      assert WorkerOk(chain, s, k);
    }
  }

  lemma DropKeyStore(chain: seq<Block>, s: State, h: nat, store: Store, op: OutPoint)
    requires Inv(chain, s) && Enabled(chain, s, DropKey(h))
    requires StoreMatches(s, store, op)
    ensures StoreMatches(DoDropKey(chain, s, h), store, op)
  {
    assert WorkerOk(chain, s, h);
    if op.txid == Current(chain, s, h).txid {
      HeldArrayIsKeyed(chain, s, op, s.jobs[h].phase.id);
    }
  }

  lemma DropKeyInv(chain: seq<Block>, s: State, h: nat)
    requires Inv(chain, s) && Enabled(chain, s, DropKey(h))
    ensures Inv(chain, DoDropKey(chain, s, h))
  {
    var t, id := DoDropKey(chain, s, h), s.jobs[h].phase.id;
    assert WorkerOk(chain, s, h);
    assert forall k :: 0 <= k < |chain| ==> HasStored(t, k) == HasStored(s, k);
    forall i | 0 <= i < |t.heap| ensures CellOk(t, i) && CellHasOrigin(chain, t, i) {
      assert CellOk(s, i) && CellHasOrigin(chain, s, i);
      if s.heap[i].txid == Current(chain, s, h).txid {
        assert i == id by { assert OneArrayEach(s); }
      }
    }
    forall k | 0 <= k < |chain| ensures WorkerOk(chain, t, k) {
      assert WorkerOk(chain, s, k);
    }
  }

  /** A step that leaves map and arrays alone and moves one job forward. */
  lemma JobStepInv(chain: seq<Block>, s: State, t: State, h: nat)
    requires Inv(chain, s) && WellFormed(chain, t) && t.heap == s.heap && t.keys == s.keys
    requires h < |chain| && forall k :: 0 <= k < |chain| && k != h ==> t.jobs[k] == s.jobs[k]
    requires HasStored(s, h) ==> HasStored(t, h)
    requires t.claimed >= s.claimed && (t.jobs[h].Waiting? || h < t.claimed)
    requires WorkerOk(chain, t, h)
    ensures Inv(chain, t)
  {
    forall i | 0 <= i < |t.heap| ensures CellOk(t, i) && CellHasOrigin(chain, t, i) {
      assert CellOk(s, i) && CellHasOrigin(chain, s, i);
      var k :| 0 <= k < |chain| && HasStored(s, k) && HasTx(chain[k], s.heap[i].txid);
      assert HasStored(t, k);
    }
    forall k | 0 <= k < |chain| ensures WorkerOk(chain, t, k) {
      assert WorkerOk(chain, s, k);
    }
  }

  // ---------- every in-memory step is a piece of a flat run ----------

  /** The flat events that an in-memory event stands for. */
  function Image(chain: seq<Block>, s: State, e: Event): seq<P.Event>
    requires WellFormed(chain, s) && Enabled(chain, s, e)
  {
    match e
    case Claim => [P.Claim]
    case Fetch(h, readable) => [P.Fetch(h, readable)]
    case HandOver => [P.HandOver]
    case LookUp(h) =>
      if DoLookUp(chain, s, h).jobs[h].Rejected? then [P.Read(h), P.Finish(h)] else []
    case TakeSlot(h) =>
      var out := VecMap.TakeSlot(s.heap[s.jobs[h].phase.id].slots, Current(chain, s, h).vout).0;
      if out.Some? then [P.Read(h), P.Delete(h)]
      else if DoTakeSlot(chain, s, h).jobs[h].Rejected? then [P.Read(h), P.Finish(h)] else [P.Read(h)]
    case DropKey(h) => if s.jobs[h].phase.out.None? then [P.Finish(h)] else []
    case Finish(h) => [P.Finish(h)]
    case Emit => [P.Emit]
  }

  lemma RunOne(chain: seq<Block>, p: P.State, e: P.Event)
    requires P.WellFormed(chain, p) && P.Enabled(chain, p, e)
    ensures P.Run(chain, p, [e]) == Some(P.Apply(chain, p, e))
  {
    hide P.Enabled, P.Apply;
    assert [e][..0] == [];
    assert P.Run(chain, p, []) == Some(p);
  }

  lemma RunTwo(chain: seq<Block>, p: P.State, e: P.Event, f: P.Event)
    requires P.WellFormed(chain, p) && P.Enabled(chain, p, e) && P.Enabled(chain, P.Apply(chain, p, e), f)
    ensures P.Run(chain, p, [e, f]) == Some(P.Apply(chain, P.Apply(chain, p, e), f))
  {
    hide P.Enabled, P.Apply;
    RunOne(chain, p, e);
    assert [e, f][..1] == [e];
  }

  /** `t` and its flat counterpart after the events of one in-memory step. */
  ghost predicate StepMatches(chain: seq<Block>, s: State, e: Event, p: P.State)
    requires WellFormed(chain, s) && Enabled(chain, s, e)
  {
    && P.WellFormed(chain, p)
    && P.Run(chain, p, Image(chain, s, e)).Some?
    && Implements(Apply(chain, s, e), P.Run(chain, p, Image(chain, s, e)).value)
  }

  lemma SimpleStepMatches(chain: seq<Block>, s: State, e: Event, p: P.State)
    requires Inv(chain, s) && Implements(s, p) && Enabled(chain, s, e)
    requires e.Claim? || e.HandOver? || e.Emit? || (e.Fetch? && !e.readable)
    ensures StepMatches(chain, s, e, p)
  {
    var f := Image(chain, s, e)[0];
    RunOne(chain, p, f);
    var t := Apply(chain, s, e);
    forall op ensures StoreMatches(t, P.Apply(chain, p, f).store, op) {
      assert StoreMatches(s, p.store, op);
    }
    assert P.Apply(chain, p, f).jobs == FlatJobs(t.jobs);
  }

  lemma FetchMatches(chain: seq<Block>, s: State, h: nat, p: P.State)
    requires UniqueTxids(chain) && Inv(chain, s) && Implements(s, p) && Enabled(chain, s, Fetch(h, true))
    ensures StepMatches(chain, s, Fetch(h, true), p)
  {
    RunOne(chain, p, P.Fetch(h, true));
    var q := P.Apply(chain, p, P.Fetch(h, true));
    forall op ensures StoreMatches(DoFetch(chain, s, h), q.store, op) {
      assert StoreMatches(s, p.store, op);
      FetchStore(chain, s, h, p.store, op);
    }
    JobUpdate(s.jobs, h, Stored);
  }

  lemma FinishMatches(chain: seq<Block>, s: State, h: nat, p: P.State)
    requires Inv(chain, s) && Implements(s, p) && Enabled(chain, s, Finish(h))
    ensures StepMatches(chain, s, Finish(h), p)
  {
    var taken := s.jobs[h].taken;
    assert Values(Somes(taken)) == taken;
    RunOne(chain, p, P.Finish(h));
    var t := Apply(chain, s, Finish(h));
    JobUpdate(s.jobs, h, t.jobs[h]);
    forall op ensures StoreMatches(t, p.store, op) {
      assert StoreMatches(s, p.store, op);
    }
  }

  /** The flat answer to the current input is what the slot holds. */
  lemma ReadsTheSlot(chain: seq<Block>, s: State, h: nat, p: P.State)
    requires Inv(chain, s) && Implements(s, p) && InFlight(chain, s, h) && !s.jobs[h].phase.MustDrop?
    requires |s.jobs[h].taken| < |Spent(chain, h)|
    ensures P.WellFormed(chain, p) && P.Enabled(chain, p, P.Read(h))
    ensures var cur := Current(chain, s, h);
      P.Apply(chain, p, P.Read(h)) == p.(jobs := p.jobs[h :=
        P.Connecting(Somes(s.jobs[h].taken) + [SlotAt(s.keys, s.heap, cur)], |s.jobs[h].taken|)])
    ensures s.jobs[h].phase.Holding? ==>
      SlotAt(s.keys, s.heap, Current(chain, s, h))
      == VecMap.TakeSlot(s.heap[s.jobs[h].phase.id].slots, Current(chain, s, h).vout).0
  {
    assert WorkerOk(chain, s, h);
    assert StoreMatches(s, p.store, Current(chain, s, h));
    if s.jobs[h].phase.Holding? {
      HeldArrayIsKeyed(chain, s, Current(chain, s, h), s.jobs[h].phase.id);
    }
  }

  /** A worker that found nothing gives up, and so does its flat counterpart. */
  lemma GivesUp(chain: seq<Block>, p: P.State, h: nat, taken: seq<TxOut>)
    requires P.WellFormed(chain, p) && h < |chain|
    requires p.jobs[h] == P.Connecting(Somes(taken) + [None], |taken|)
    ensures P.Enabled(chain, p, P.Finish(h))
    ensures P.Apply(chain, p, P.Finish(h)) == p.(jobs := p.jobs[h := P.Rejected(|taken|)])
  {
    assert p.jobs[h].answers[|taken|] == None;
  }

  /** In the flat pipeline the worker reads, finds nothing and gives up. */
  lemma FlatMiss(chain: seq<Block>, s: State, h: nat, p: P.State)
    requires Inv(chain, s) && Implements(s, p) && InFlight(chain, s, h) && !s.jobs[h].phase.MustDrop?
    requires |s.jobs[h].taken| < |Spent(chain, h)| && SlotAt(s.keys, s.heap, Current(chain, s, h)) == None
    ensures P.WellFormed(chain, p)
    ensures P.Run(chain, p, [P.Read(h), P.Finish(h)]) == Some(p.(jobs := p.jobs[h := P.Rejected(|s.jobs[h].taken|)]))
  {
    var taken := s.jobs[h].taken;
    ReadsTheSlot(chain, s, h, p);
    hide Inv, Implements, Spent, SlotAt, P.Run;
    var q := P.Apply(chain, p, P.Read(h));
    GivesUp(chain, q, h, taken);
    RunTwo(chain, p, P.Read(h), P.Finish(h));
    assert p.jobs[h := q.jobs[h]][h := P.Rejected(|taken|)] == p.jobs[h := P.Rejected(|taken|)];
  }

  lemma LookUpMatches(chain: seq<Block>, s: State, h: nat, p: P.State)
    requires Inv(chain, s) && Implements(s, p) && Enabled(chain, s, LookUp(h))
    ensures StepMatches(chain, s, LookUp(h), p)
  {
    var t, taken := DoLookUp(chain, s, h), s.jobs[h].taken;
    assert t.jobs[h].Rejected? ==> SlotAt(s.keys, s.heap, Current(chain, s, h)) == None;
    JobUpdate(s.jobs, h, t.jobs[h]);
    forall op ensures StoreMatches(t, p.store, op) {
      assert StoreMatches(s, p.store, op);
    }
    hide Inv, Spent, SlotAt, StoreMatches, P.Run;
    if t.jobs[h].Rejected? {
      FlatMiss(chain, s, h, p);
    } else {
      assert p.jobs[h := p.jobs[h]] == p.jobs;
    }
  }

  /** In the flat pipeline the worker reads and deletes its output. */
  lemma FlatTake(chain: seq<Block>, s: State, h: nat, p: P.State, o: TxOut) returns (r: P.State)
    requires Inv(chain, s) && Implements(s, p) && Enabled(chain, s, TakeSlot(h))
    requires VecMap.TakeSlot(s.heap[s.jobs[h].phase.id].slots, Current(chain, s, h).vout).0 == Some(o)
    ensures P.WellFormed(chain, p) && P.Run(chain, p, [P.Read(h), P.Delete(h)]) == Some(r)
    ensures var taken := s.jobs[h].taken;
      r == p.(jobs := p.jobs[h := P.Connecting(Somes(taken) + [Some(o)], |taken| + 1)],
              store := Remove(p.store, [Current(chain, s, h)]))
  {
    var taken, cur := s.jobs[h].taken, Current(chain, s, h);
    ReadsTheSlot(chain, s, h, p);
    hide Inv, Implements, Spent, SlotAt, Remove, P.Run;
    var q := P.Apply(chain, p, P.Read(h));
    assert q.jobs[h] == P.Connecting(Somes(taken) + [Some(o)], |taken|);
    assert P.Enabled(chain, q, P.Delete(h));
    RunTwo(chain, p, P.Read(h), P.Delete(h));
    r := P.Apply(chain, q, P.Delete(h));
  }

  lemma TakeSomeMatches(chain: seq<Block>, s: State, h: nat, p: P.State, o: TxOut)
    requires Inv(chain, s) && Implements(s, p) && Enabled(chain, s, TakeSlot(h))
    requires VecMap.TakeSlot(s.heap[s.jobs[h].phase.id].slots, Current(chain, s, h).vout).0 == Some(o)
    ensures StepMatches(chain, s, TakeSlot(h), p)
  {
    var t, taken := DoTakeSlot(chain, s, h), s.jobs[h].taken;
    hide Inv, Spent, SlotAt, StoreMatches, Remove, P.Run;
    var r := FlatTake(chain, s, h, p, o);
    JobUpdate(s.jobs, h, t.jobs[h]);
    assert Somes(taken + [o]) == Somes(taken) + [Some(o)];
    forall op ensures StoreMatches(t, r.store, op) {
      TakeSlotStore(chain, s, h, p.store, op);
    }
  }

  lemma NothingToRemove(s: State, store: Store, op: OutPoint)
    requires StoreMatches(s, store, op) && SlotAt(s.keys, s.heap, op) == None
    ensures Remove(store, [op]) == store
  {
  }

  lemma TakeNoneMatches(chain: seq<Block>, s: State, h: nat, p: P.State)
    requires Inv(chain, s) && Implements(s, p) && Enabled(chain, s, TakeSlot(h))
    requires VecMap.TakeSlot(s.heap[s.jobs[h].phase.id].slots, Current(chain, s, h).vout).0 == None
    ensures StepMatches(chain, s, TakeSlot(h), p)
  {
    var t, taken, cur := DoTakeSlot(chain, s, h), s.jobs[h].taken, Current(chain, s, h);
    hide Inv, Spent, SlotAt, StoreMatches, Remove, P.Run;
    JobUpdate(s.jobs, h, t.jobs[h]);
    ReadsTheSlot(chain, s, h, p);
    NothingToRemove(s, p.store, cur);
    forall op ensures StoreMatches(t, p.store, op) {
      TakeSlotStore(chain, s, h, p.store, op);
    }
    if t.jobs[h].Rejected? {
      FlatMiss(chain, s, h, p);
    } else {
      RunOne(chain, p, P.Read(h));
    }
  }

  lemma DropKeyMatches(chain: seq<Block>, s: State, h: nat, p: P.State)
    requires Inv(chain, s) && Implements(s, p) && Enabled(chain, s, DropKey(h))
    ensures StepMatches(chain, s, DropKey(h), p)
  {
    var t, taken, out := DoDropKey(chain, s, h), s.jobs[h].taken, s.jobs[h].phase.out;
    JobUpdate(s.jobs, h, t.jobs[h]);
    forall op ensures StoreMatches(t, p.store, op) {
      assert StoreMatches(s, p.store, op);
      DropKeyStore(chain, s, h, p.store, op);
    }
    if out.None? {
      GivesUp(chain, p, h, taken);
      RunOne(chain, p, P.Finish(h));
    } else {
      assert Somes(taken + [out.value]) == Somes(taken) + [Some(out.value)];
      assert p.jobs[h := p.jobs[h]] == p.jobs;
    }
  }

  lemma StepSimulates(chain: seq<Block>, s: State, e: Event, p: P.State)
    requires UniqueTxids(chain) && WellFormed(chain, s) && Inv(chain, s) && Implements(s, p) && Enabled(chain, s, e)
    ensures StepMatches(chain, s, e, p)
  {
    hide Inv, Implements, StepMatches, UniqueTxids;
    match e {
      case Fetch(h, readable) =>
        if readable {
          FetchMatches(chain, s, h, p);
        } else {
          SimpleStepMatches(chain, s, e, p);
        }
      case LookUp(h) =>
        LookUpMatches(chain, s, h, p);
      case TakeSlot(h) =>
        var out := VecMap.TakeSlot(s.heap[s.jobs[h].phase.id].slots, Current(chain, s, h).vout).0;
        if out.Some? {
          TakeSomeMatches(chain, s, h, p, out.value);
        } else {
          TakeNoneMatches(chain, s, h, p);
        }
      case DropKey(h) =>
        DropKeyMatches(chain, s, h, p);
      case Finish(h) =>
        FinishMatches(chain, s, h, p);
      case _ =>
        SimpleStepMatches(chain, s, e, p);
    }
  }

  lemma StepInv(chain: seq<Block>, s: State, e: Event)
    requires UniqueTxids(chain) && WellFormed(chain, s) && Inv(chain, s) && Enabled(chain, s, e)
    ensures Inv(chain, Apply(chain, s, e))
  {
    match e {
      case Fetch(h, readable) =>
        if readable {
          FetchInv(chain, s, h);
        } else {
          JobStepInv(chain, s, Apply(chain, s, e), h);
        }
      case LookUp(h) =>
        LookUpInv(chain, s, h);
      case TakeSlot(h) =>
        TakeSlotInv(chain, s, h);
      case DropKey(h) =>
        DropKeyInv(chain, s, h);
      case Finish(h) =>
        JobStepInv(chain, s, Apply(chain, s, e), h);
      case Claim =>
        JobStepInv(chain, s, Apply(chain, s, e), s.claimed);
      case HandOver =>
        JobStepInv(chain, s, Apply(chain, s, e), s.handed);
      case Emit =>
        EmitInv(chain, s);
    }
  }

  lemma LookUpInv(chain: seq<Block>, s: State, h: nat)
    requires Inv(chain, s) && Enabled(chain, s, LookUp(h))
    ensures Inv(chain, DoLookUp(chain, s, h))
  {
    assert WorkerOk(chain, s, h);
    JobStepInv(chain, s, DoLookUp(chain, s, h), h);
  }

  lemma EmitInv(chain: seq<Block>, s: State)
    requires Inv(chain, s) && Enabled(chain, s, Emit)
    ensures Inv(chain, Apply(chain, s, Emit))
  {
    var t := Apply(chain, s, Emit);
    forall i | 0 <= i < |t.heap| ensures CellOk(t, i) && CellHasOrigin(chain, t, i) {
      assert CellOk(s, i) && CellHasOrigin(chain, s, i);
    }
    forall k | 0 <= k < |chain| ensures WorkerOk(chain, t, k) {
      assert WorkerOk(chain, s, k);
    }
  }
}
