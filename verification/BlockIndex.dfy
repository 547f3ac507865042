/**
 Loading the best chain out of the block index database, and its reverse index.

 The block hash is an arbitrary function of the header: nothing here assumes that two
 headers have different hashes.
 */
module BlockIndex {
  import opened Bits
  import opened Wrappers
  import opened IndexRecord

  type BlockHasher = Header -> BlockHash

  datatype Entry = Entry(key: seq<byte>, value: seq<byte>)

  /** The panics of the loader are outcomes of the model. */
  datatype LoadResult =
    | Loaded(records: seq<Record>)
    | DecodeError
    | CapacityPanic
    | MissingBlockPanic
    | WrongHeightPanic

  // ---------- what the scan keeps ----------

  predicate IsIndexEntry(e: Entry) {
    |e.key| > 0 && e.key[0] == 'b' as int
  }

  predicate Decodable(entries: seq<Entry>) {
    forall i :: 0 <= i < |entries| && IsIndexEntry(entries[i]) ==> Decoded(entries[i].value).Some?
  }

  /** The record an entry contributes, if any. */
  function Kept(e: Entry): (r: Option<Record>)
    ensures r.Some? ==> r.value.IsValid()
  {
    if !IsIndexEntry(e) then None
    else
      var decoded := Decoded(e.value);
      if decoded.Some? && decoded.value.IsValid() then decoded else None
  }

  /** The valid records, in scan order. */
  function ScannedRecords(entries: seq<Entry>): (recs: seq<Record>)
    ensures forall i :: 0 <= i < |recs| ==> recs[i].IsValid()
  {
    if entries == [] then []
    else
      var before, kept := ScannedRecords(entries[..|entries| - 1]), Kept(entries[|entries| - 1]);
      if kept.Some? then before + [kept.value] else before
  }

  /** The records by block hash; of two records with one hash the later stays. */
  function Table(recs: seq<Record>, hash: BlockHasher): map<BlockHash, Record> {
    if recs == [] then map[]
    else Table(recs[..|recs| - 1], hash)[hash(recs[|recs| - 1].header) := recs[|recs| - 1]]
  }

  lemma {:induction false} TableEntries(recs: seq<Record>, hash: BlockHasher, k: BlockHash)
    requires k in Table(recs, hash)
    ensures Table(recs, hash)[k] in recs && hash(Table(recs, hash)[k].header) == k
  {
    var last := recs[|recs| - 1];
    if k != hash(last.header) {
      TableEntries(recs[..|recs| - 1], hash, k);
    }
  }

  /** Record `t` is the first one of greatest height. */
  ghost predicate FirstHighest(recs: seq<Record>, t: nat) {
    && t < |recs|
    && (forall i :: 0 <= i < |recs| ==> recs[i].height <= recs[t].height)
    && (forall i :: 0 <= i < t ==> recs[i].height < recs[t].height)
  }

  ghost function TipIndex(recs: seq<Record>): (t: nat)
    requires recs != []
    ensures FirstHighest(recs, t)
  {
    if |recs| == 1 then 0
    else
      var t := TipIndex(recs[..|recs| - 1]);
      if recs[|recs| - 1].height > recs[t].height then |recs| - 1 else t
  }

  lemma FirstHighestIsUnique(recs: seq<Record>, t: nat, u: nat)
    requires FirstHighest(recs, t) && FirstHighest(recs, u)
    ensures t == u
  {
    assert recs[t].height == recs[u].height;
  }

  lemma TipStep(before: seq<Record>, r: Record)
    ensures before == [] ==> TipIndex(before + [r]) == 0
    ensures before != [] ==>
      TipIndex(before + [r]) == if r.height > before[TipIndex(before)].height then |before| else TipIndex(before)
  {
    assert (before + [r])[..|before|] == before;
  }

  // ---------- what the walk finds ----------

  /** `c` is the chain that ends in the record under `tip`: every entry sits at its own height
      and is the table's record for the parent hash of the entry above it. */
  ghost predicate Ancestry(table: map<BlockHash, Record>, tip: BlockHash, c: seq<Record>) {
    && |c| > 0
    && (forall i :: 0 <= i < |c| ==> c[i].height == i)
    && (forall i :: 0 <= i < |c| ==> KeyAt(tip, c, i) in table && table[KeyAt(tip, c, i)] == c[i])
  }

  /** The hash under which entry `i` of `c` is looked up. */
  function KeyAt(tip: BlockHash, c: seq<Record>, i: nat): BlockHash
    requires i < |c|
  {
    if i == |c| - 1 then tip else PrevBlockHash(c[i + 1].header)
  }

  /** The records found so far, from the tip downwards. */
  ghost predicate Path(table: map<BlockHash, Record>, tip: BlockHash, top: int, found: seq<Record>) {
    && (forall j :: 0 <= j < |found| ==> found[j].height == top - j)
    && (forall j :: 0 <= j < |found| ==> WalkKey(tip, found, j) in table && table[WalkKey(tip, found, j)] == found[j])
  }

  /** The hash under which the walk looks for its `j`-th record. */
  function WalkKey(tip: BlockHash, found: seq<Record>, j: nat): BlockHash
    requires j <= |found|
  {
    if j == 0 then tip else PrevBlockHash(found[j - 1].header)
  }

  /** The state of the walk when `height` is the next height to look for. */
  ghost predicate Walking(table: map<BlockHash, Record>, left: map<BlockHash, Record>, tip: BlockHash, top: int,
                          found: seq<Record>, next: BlockHash, height: int)
  {
    && -1 <= height <= top && |found| == top - height
    && Path(table, tip, top, found)
    && next == WalkKey(tip, found, |found|)
    && (forall k :: k in left ==> k in table && left[k] == table[k])
    && (forall k :: k in table && k !in left ==> table[k].height > height)
  }

  /** As far as the walk has come, there is only one candidate chain. */
  lemma {:induction false} PathFollowsAncestry(table: map<BlockHash, Record>, tip: BlockHash, top: int,
                                               found: seq<Record>, c: seq<Record>, j: nat)
    requires Path(table, tip, top, found) && |found| <= top + 1
    requires Ancestry(table, tip, c) && |c| == top + 1
    requires j < |found|
    ensures found[j] == c[top - j]
  {
    if j == 0 {
    } else {
      PathFollowsAncestry(table, tip, top, found, c, j - 1);
    }
    assert KeyAt(tip, c, top - j) == WalkKey(tip, found, j);
  }

  /** While a chain exists, its next record is still in the table, at the right height. */
  lemma NextIsOnTheChain(table: map<BlockHash, Record>, left: map<BlockHash, Record>, tip: BlockHash, top: int,
                         found: seq<Record>, next: BlockHash, height: int, c: seq<Record>)
    requires Walking(table, left, tip, top, found, next, height) && height >= 0
    ensures Ancestry(table, tip, c) && |c| == top + 1 ==> next in left && left[next].height == height
  {
    hide Ancestry, Path, KeyAt, WalkKey;
    if Ancestry(table, tip, c) && |c| == top + 1 {
      NextKey(table, tip, top, found, c);
      AncestryAt(table, tip, c, height);
    }
  }

  lemma NextKey(table: map<BlockHash, Record>, tip: BlockHash, top: int, found: seq<Record>, c: seq<Record>)
    requires Path(table, tip, top, found) && |found| <= top
    requires Ancestry(table, tip, c) && |c| == top + 1
    ensures KeyAt(tip, c, top - |found|) == WalkKey(tip, found, |found|)
  {
    if found != [] {
      PathFollowsAncestry(table, tip, top, found, c, |found| - 1);
    }
    hide Path, Ancestry;
  }

  lemma AncestryAt(table: map<BlockHash, Record>, tip: BlockHash, c: seq<Record>, i: nat)
    requires Ancestry(table, tip, c) && i < |c|
    ensures c[i].height == i && KeyAt(tip, c, i) in table && table[KeyAt(tip, c, i)] == c[i]
  {
  }

  lemma WalkKeyOfPrefix(tip: BlockHash, found: seq<Record>, r: Record, j: nat)
    requires j <= |found|
    ensures WalkKey(tip, found + [r], j) == WalkKey(tip, found, j)
  {
  }

  lemma PathStep(table: map<BlockHash, Record>, tip: BlockHash, top: int, found: seq<Record>, r: Record)
    requires Path(table, tip, top, found) && r.height == top - |found|
    requires WalkKey(tip, found, |found|) in table && table[WalkKey(tip, found, |found|)] == r
    ensures Path(table, tip, top, found + [r])
  {
    var longer := found + [r];
    forall j | 0 <= j < |longer|
      ensures longer[j].height == top - j
      ensures WalkKey(tip, longer, j) in table && table[WalkKey(tip, longer, j)] == longer[j]
    {
      assert longer[j] == if j < |found| then found[j] else r;
      WalkKeyOfPrefix(tip, found, r, j);
      hide WalkKey;
    }
  }

  lemma WalkStep(table: map<BlockHash, Record>, left: map<BlockHash, Record>, tip: BlockHash, top: int,
                 found: seq<Record>, next: BlockHash, height: int)
    requires Walking(table, left, tip, top, found, next, height) && height >= 0
    requires next in left && left[next].height == height
    ensures Walking(table, left - {next}, tip, top, found + [left[next]], PrevBlockHash(left[next].header), height - 1)
  {
    PathStep(table, tip, top, found, left[next]);
  }

  function Reversed<T>(s: seq<T>): (r: seq<T>)
    ensures |r| == |s|
    ensures forall i :: 0 <= i < |s| ==> r[i] == s[|s| - 1 - i]
  {
    if s == [] then [] else [s[|s| - 1]] + Reversed(s[..|s| - 1])
  }

  lemma WalkedEntry(table: map<BlockHash, Record>, tip: BlockHash, top: int, found: seq<Record>, i: nat)
    requires Path(table, tip, top, found) && |found| == top + 1 && i < |found|
    ensures var c := Reversed(found);
      c[i].height == i && KeyAt(tip, c, i) in table && table[KeyAt(tip, c, i)] == c[i]
  {
    hide Reversed, Path;
    var c, j := Reversed(found), top - i;
    PathAt(table, tip, top, found, j);
    assert c[i] == found[j];
    if i < top {
      assert c[i + 1] == found[j - 1];
    }
  }

  lemma PathAt(table: map<BlockHash, Record>, tip: BlockHash, top: int, found: seq<Record>, j: nat)
    requires Path(table, tip, top, found) && j < |found|
    ensures found[j].height == top - j
    ensures WalkKey(tip, found, j) in table && table[WalkKey(tip, found, j)] == found[j]
  {
  }

  lemma FinishedWalkIsAncestry(table: map<BlockHash, Record>, tip: BlockHash, top: int, found: seq<Record>)
    requires Path(table, tip, top, found) && |found| == top + 1 && top >= 0
    ensures Ancestry(table, tip, Reversed(found)) && |Reversed(found)| == top + 1
  {
    var c := Reversed(found);
    assert |c| == top + 1;
    hide Path, Reversed, KeyAt;
    forall i | 0 <= i < |c|
      ensures c[i].height == i
      ensures KeyAt(tip, c, i) in table && table[KeyAt(tip, c, i)] == c[i]
    {
      WalkedEntry(table, tip, top, found, i);
    }
  }

  // ---------- the loader ----------

  /** Reserving room for `top + 1` records, computed as `top as usize + 1`: a negative height is
      far too large, except that without overflow checks -1 wraps round to no room at all. */
  predicate RoomFor(top: int, overflowChecks: bool) {
    top >= 0 || (top == -1 && !overflowChecks)
  }

  /** The loader's result on a database that decodes and holds at least one valid record. */
  ghost predicate BestChain(recs: seq<Record>, hash: BlockHasher, overflowChecks: bool, r: LoadResult)
    requires recs != []
  {
    var tip := recs[TipIndex(recs)];
    var table, tipHash := Table(recs, hash), hash(tip.header);
    if !RoomFor(tip.height, overflowChecks) then r.CapacityPanic?
    else if tip.height < 0 then r == Loaded([])
    else
      && (r.Loaded? <==> exists c :: Ancestry(table, tipHash, c) && |c| == tip.height + 1)
      && (r.Loaded? ==> Ancestry(table, tipHash, r.records) && |r.records| == tip.height + 1)
      && (!r.Loaded? ==> r.MissingBlockPanic? || r.WrongHeightPanic?)
  }

  /** The loader's result on any database. */
  ghost predicate LoadsAs(entries: seq<Entry>, hash: BlockHasher, overflowChecks: bool, r: LoadResult) {
    && (r.DecodeError? <==> !Decodable(entries))
    && (Decodable(entries) && ScannedRecords(entries) == [] ==> r == Loaded([]))
    && (Decodable(entries) && ScannedRecords(entries) != [] ==>
          BestChain(ScannedRecords(entries), hash, overflowChecks, r))
  }

  /** When loading succeeds: every entry decodes, and if there are valid records, the whole
      ancestry of the tip is among them, each record at its height. */
  ghost predicate Loadable(entries: seq<Entry>, hash: BlockHasher, overflowChecks: bool) {
    var recs := ScannedRecords(entries);
    Decodable(entries) && (recs != [] ==>
      var tip := recs[TipIndex(recs)];
      && RoomFor(tip.height, overflowChecks)
      && (tip.height >= 0 ==> exists c :: Ancestry(Table(recs, hash), hash(tip.header), c) && |c| == tip.height + 1))
  }

  method LoadBlockIndex(entries: seq<Entry>, hash: BlockHasher, overflowChecks: bool) returns (r: LoadResult)
    ensures LoadsAs(entries, hash, overflowChecks, r)
    ensures r.Loaded? <==> Loadable(entries, hash, overflowChecks)
  {
    var scanned := ScanEntries(entries, hash);
    if scanned.None? {
      return DecodeError;
    }
    var Scan(byHash, best) := scanned.value;
    if best.None? {
      return Loaded([]);
    }
    r := WalkBack(byHash, best.value.0, best.value.1, overflowChecks);
  }

  datatype Scan = Scan(byHash: map<BlockHash, Record>, best: Option<(BlockHash, I32)>)

  /** What the scan has gathered after it saw the valid records `recs`. */
  ghost predicate Gathered(recs: seq<Record>, hash: BlockHasher, s: Scan) {
    && s.byHash == Table(recs, hash)
    && (recs == [] ==> s.best == None)
    && (recs != [] ==> s.best == Some((hash(recs[TipIndex(recs)].header), recs[TipIndex(recs)].height)))
  }

  /** One valid record: raise the maximum if it is higher, and enter it in the table. */
  function Gather(s: Scan, hash: BlockHasher, record: Record): Scan {
    var blockHash := hash(record.header);
    Scan(s.byHash[blockHash := record],
         if s.best.None? || record.height > s.best.value.1 then Some((blockHash, record.height)) else s.best)
  }

  lemma GatherStep(before: seq<Record>, hash: BlockHasher, s: Scan, record: Record)
    requires Gathered(before, hash, s)
    ensures Gathered(before + [record], hash, Gather(s, hash, record))
  {
    TableStep(before, hash, record);
    TipStep(before, record);
    hide Table, TipIndex;
  }

  lemma TableStep(before: seq<Record>, hash: BlockHasher, record: Record)
    ensures Table(before + [record], hash) == Table(before, hash)[hash(record.header) := record]
  {
    assert (before + [record])[..|before|] == before;
  }

  /** What one entry does to the scan: nothing, a record gathered, or the end of it. */
  function ScanEntry(s: Scan, hash: BlockHasher, e: Entry): Option<Scan> {
    if !IsIndexEntry(e) then Some(s)
    else
      var record :- Decoded(e.value);
      Some(if record.IsValid() then Gather(s, hash, record) else s)
  }

  function ScanAll(entries: seq<Entry>, hash: BlockHasher): Option<Scan> {
    if entries == [] then Some(Scan(map[], None))
    else
      var before :- ScanAll(entries[..|entries| - 1], hash);
      ScanEntry(before, hash, entries[|entries| - 1])
  }

  /** The scan sees an entry it can read, or one it cannot. */
  lemma ScanEntryGathers(recs: seq<Record>, hash: BlockHasher, s: Scan, e: Entry)
    requires Gathered(recs, hash, s)
    ensures ScanEntry(s, hash, e).None? <==> IsIndexEntry(e) && Decoded(e.value).None?
    ensures ScanEntry(s, hash, e).Some? ==>
      Gathered(if Kept(e).Some? then recs + [Kept(e).value] else recs, hash, ScanEntry(s, hash, e).value)
  {
    if Kept(e).Some? {
      GatherStep(recs, hash, s, Kept(e).value);
    }
  }

  lemma DecodableStep(before: seq<Entry>, e: Entry)
    ensures Decodable(before + [e]) <==> Decodable(before) && (IsIndexEntry(e) ==> Decoded(e.value).Some?)
  {
    assert forall i :: 0 <= i < |before| ==> (before + [e])[i] == before[i];
    assert (before + [e])[|before|] == e;
  }

  lemma NothingGathered(entries: seq<Entry>, hash: BlockHasher)
    requires entries == []
    ensures Decodable(entries) && Gathered([], hash, Scan(map[], None))
  {
  }

  lemma {:induction false} ScanGathers(entries: seq<Entry>, hash: BlockHasher)
    ensures ScanAll(entries, hash).None? <==> !Decodable(entries)
    ensures ScanAll(entries, hash).Some? ==> Gathered(ScannedRecords(entries), hash, ScanAll(entries, hash).value)
  {
    hide Gathered, ScanEntry, Decodable, Decoded, IsIndexEntry, Kept;
    if entries == [] {
      NothingGathered(entries, hash);
    } else {
      var before, e := entries[..|entries| - 1], entries[|entries| - 1];
      ScanGathers(before, hash);
      assert Decodable(entries) <==> Decodable(before) && (IsIndexEntry(e) ==> Decoded(e.value).Some?) by {
        DecodableStep(before, e);
        assert entries == before + [e];
      }
      if ScanAll(before, hash).Some? {
        ScanEntryGathers(ScannedRecords(before), hash, ScanAll(before, hash).value, e);
      }
    }
  }

  lemma {:induction false} FailedScanStaysFailed(entries: seq<Entry>, i: nat, hash: BlockHasher)
    requires i <= |entries| && ScanAll(entries[..i], hash).None?
    ensures ScanAll(entries, hash).None?
  {
    if i == |entries| {
      assert entries[..i] == entries;
    } else {
      var before := entries[..|entries| - 1];
      assert before[..i] == entries[..i];
      FailedScanStaysFailed(before, i, hash);
    }
  }

  method ReadEntry(s: Scan, hash: BlockHasher, e: Entry) returns (r: Option<Scan>)
    ensures r == ScanEntry(s, hash, e)
  {
    if !IsIndexEntry(e) {
      return Some(s);
    }
    var record := Decode(e.value);
    if record.None? {
      return None;
    }
    r := Some(if record.value.IsValid() then Gather(s, hash, record.value) else s);
  }

  method ScanEntries(entries: seq<Entry>, hash: BlockHasher) returns (r: Option<Scan>)
    ensures r == ScanAll(entries, hash)
    ensures r.None? <==> !Decodable(entries)
    ensures r.Some? ==> Gathered(ScannedRecords(entries), hash, r.value)
  {
    r := ScanLoop(entries, hash);
    ScanGathers(entries, hash);
  }

  method ScanLoop(entries: seq<Entry>, hash: BlockHasher) returns (r: Option<Scan>)
    ensures r == ScanAll(entries, hash)
  {
    hide ScanEntry;
    var s := Scan(map[], None);
    var i := 0;
    while i < |entries|
      invariant 0 <= i <= |entries|
      invariant ScanAll(entries[..i], hash) == Some(s)
    {
      assert entries[..i + 1][..i] == entries[..i];
      var next := ReadEntry(s, hash, entries[i]);
      if next.None? {
        FailedScanStaysFailed(entries, i + 1, hash);
        return None;
      }
      s := next.value;
      i := i + 1;
    }
    assert entries[..i] == entries;
    r := Some(s);
  }

  /** The destructive walk from the tip: every record found is removed from the table. */
  method WalkBack(byHash: map<BlockHash, Record>, tip: BlockHash, top: I32, overflowChecks: bool)
    returns (r: LoadResult)
    ensures !RoomFor(top, overflowChecks) ==> r.CapacityPanic?
    ensures RoomFor(top, overflowChecks) && top < 0 ==> r == Loaded([])
    ensures top >= 0 ==>
      && (r.Loaded? <==> exists c :: Ancestry(byHash, tip, c) && |c| == top + 1)
      && (r.Loaded? ==> Ancestry(byHash, tip, r.records) && |r.records| == top + 1)
      && (!r.Loaded? ==> r.MissingBlockPanic? || r.WrongHeightPanic?)
  {
    if !RoomFor(top, overflowChecks) {
      return CapacityPanic;
    }
    var left, found, next, height := byHash, [], tip, top as int;
    while height >= 0
      invariant Walking(byHash, left, tip, top, found, next, height)
    {
      if next !in left || left[next].height != height {
        forall c ensures !(Ancestry(byHash, tip, c) && |c| == top + 1) {
          NextIsOnTheChain(byHash, left, tip, top, found, next, height, c);
        }
        return if next !in left then MissingBlockPanic else WrongHeightPanic;
      }
      WalkStep(byHash, left, tip, top, found, next, height);
      var blk := left[next];
      left := left - {next};
      next := PrevBlockHash(blk.header);
      height := height - 1;
      found := found + [blk];
    }
    if top >= 0 {
      FinishedWalkIsAncestry(byHash, tip, top, found);
    }
    r := Loaded(Reversed(found));
  }

  // ---------- what a loaded index is ----------

  /** A hash-linked chain of valid records, one per height, no two under one hash. */
  ghost predicate LinkedChain(c: seq<Record>, hash: BlockHasher) {
    && (forall i :: 0 <= i < |c| ==> c[i].height == i && c[i].IsValid())
    && (forall i :: 0 <= i < |c| - 1 ==> PrevBlockHash(c[i + 1].header) == hash(c[i].header))
    && (forall i, j :: 0 <= i < j < |c| ==> hash(c[i].header) != hash(c[j].header))
  }

  /** The distinct hashes come from the table being keyed by hash, not from the hash function. */
  lemma LoadedChainIsLinked(recs: seq<Record>, hash: BlockHasher, tip: BlockHash, c: seq<Record>)
    requires forall i :: 0 <= i < |recs| ==> recs[i].IsValid()
    requires Ancestry(Table(recs, hash), tip, c)
    ensures LinkedChain(c, hash)
    ensures |c| > 0 && hash(c[|c| - 1].header) == tip
    ensures forall i :: 0 <= i < |c| ==> c[i] in recs
  {
    assert |c| > 0;
    hide Table, Record.IsValid, Ancestry, KeyAt;
    forall i | 0 <= i < |c|
      ensures c[i] in recs && c[i].IsValid() && c[i].height == i
      ensures i < |c| - 1 ==> PrevBlockHash(c[i + 1].header) == hash(c[i].header)
      ensures i == |c| - 1 ==> tip == hash(c[i].header)
    {
      ChainEntry(recs, hash, tip, c, i);
      KeyIsParent(tip, c, i);
    }
    forall i, j | 0 <= i < j < |c| ensures hash(c[i].header) != hash(c[j].header) {
      HashesDiffer(recs, hash, tip, c, i, j);
    }
  }

  lemma KeyIsParent(tip: BlockHash, c: seq<Record>, i: nat)
    requires i < |c|
    ensures KeyAt(tip, c, i) == if i == |c| - 1 then tip else PrevBlockHash(c[i + 1].header)
  {
  }

  lemma HashesDiffer(recs: seq<Record>, hash: BlockHasher, tip: BlockHash, c: seq<Record>, i: nat, j: nat)
    requires forall k :: 0 <= k < |recs| ==> recs[k].IsValid()
    requires Ancestry(Table(recs, hash), tip, c) && i < j < |c|
    ensures hash(c[i].header) != hash(c[j].header)
  {
    hide Table, Record.IsValid, Ancestry, KeyAt;
    ChainEntry(recs, hash, tip, c, i);
    ChainEntry(recs, hash, tip, c, j);
  }

  lemma ChainEntry(recs: seq<Record>, hash: BlockHasher, tip: BlockHash, c: seq<Record>, i: nat)
    requires forall j :: 0 <= j < |recs| ==> recs[j].IsValid()
    requires Ancestry(Table(recs, hash), tip, c) && i < |c|
    ensures hash(c[i].header) == KeyAt(tip, c, i) && c[i] in recs && c[i].IsValid() && c[i].height == i
    ensures KeyAt(tip, c, i) in Table(recs, hash) && Table(recs, hash)[KeyAt(tip, c, i)] == c[i]
  {
    TableEntries(recs, hash, KeyAt(tip, c, i));
  }

  // ---------- which record is on top ----------

  /** Record l is the last one scanned under its hash. */
  ghost predicate LastUnderItsHash(recs: seq<Record>, hash: BlockHasher, l: nat) {
    l < |recs| && forall j :: l < j < |recs| ==> hash(recs[j].header) != hash(recs[l].header)
  }

  lemma {:induction false} TableHoldsLast(recs: seq<Record>, hash: BlockHasher, l: nat)
    requires LastUnderItsHash(recs, hash, l)
    ensures hash(recs[l].header) in Table(recs, hash) && Table(recs, hash)[hash(recs[l].header)] == recs[l]
  {
    if l == |recs| - 1 {
    } else {
      TableHoldsLast(recs[..|recs| - 1], hash, l);
      assert hash(recs[l].header) != hash(recs[|recs| - 1].header);
    }
  }

  /** The loaded chain ends in the last record scanned under the tip's hash; so it ends in the
      first highest record if and only if these two are equal. */
  lemma LoadedTopIsFirstHighestIff(recs: seq<Record>, hash: BlockHasher, c: seq<Record>, l: nat)
    requires recs != [] && Ancestry(Table(recs, hash), hash(recs[TipIndex(recs)].header), c)
    requires LastUnderItsHash(recs, hash, l) && hash(recs[l].header) == hash(recs[TipIndex(recs)].header)
    ensures c[|c| - 1] == recs[l]
    ensures c[|c| - 1] == recs[TipIndex(recs)] <==> recs[l] == recs[TipIndex(recs)]
  {
    TableHoldsLast(recs, hash, l);
    assert KeyAt(hash(recs[TipIndex(recs)].header), c, |c| - 1) == hash(recs[l].header);
  }

  function Genesis(header: Header, nTx: U32): Record {
    Record(0, 0, 0, nTx, -1, U32_MAX, U32_MAX, header)
  }

  /** Two records with one header: the first is the first highest, the second is loaded. */
  lemma LaterRecordReplacesTip(header: Header, hash: BlockHasher)
    ensures var recs := [Genesis(header, 1), Genesis(header, 2)];
      TipIndex(recs) == 0 && recs[0] != recs[1] && BestChain(recs, hash, true, Loaded([recs[1]]))
  {
    var recs := [Genesis(header, 1), Genesis(header, 2)];
    TipStep([recs[0]], recs[1]);
    assert [recs[0]] + [recs[1]] == recs;
    TableHoldsLast(recs, hash, 1);
    assert Ancestry(Table(recs, hash), hash(header), [recs[1]]);
  }

  // ---------- a written index is loaded ----------

  lemma {:induction false} AncestryIsUnique(table: map<BlockHash, Record>, tip: BlockHash,
                                            c: seq<Record>, d: seq<Record>, i: nat)
    requires Ancestry(table, tip, c) && Ancestry(table, tip, d) && |c| == |d| && i < |c|
    ensures c[|c| - 1 - i] == d[|c| - 1 - i]
  {
    if i == 0 {
      assert KeyAt(tip, c, |c| - 1) == KeyAt(tip, d, |c| - 1);
    } else {
      AncestryIsUnique(table, tip, c, d, i - 1);
      assert KeyAt(tip, c, |c| - 1 - i) == KeyAt(tip, d, |c| - 1 - i);
    }
  }

  /** Some entry is the encoding of `r`. */
  predicate IsWritten(entries: seq<Entry>, r: Record) {
    exists k :: 0 <= k < |entries| && IsIndexEntry(entries[k]) && entries[k].value == EncodeRecord(r)
  }

  lemma WrittenDecodes(r: Record)
    requires Canonical(r)
    ensures Decoded(EncodeRecord(r)) == Some(r)
  {
    RecordRoundTrip(r, []);
    assert EncodeRecord(r) + [] == EncodeRecord(r);
    hide EncodeRecord, ParseRecord, Canonical;
  }

  lemma {:induction false} WrittenIsScanned(entries: seq<Entry>, k: nat, r: Record)
    requires k < |entries| && IsIndexEntry(entries[k]) && entries[k].value == EncodeRecord(r)
    requires Canonical(r) && r.IsValid()
    ensures r in ScannedRecords(entries)
  {
    hide EncodeRecord, Decoded, Canonical, Record.IsValid;
    if k == |entries| - 1 {
      WrittenDecodes(r);
    } else {
      WrittenIsScanned(entries[..|entries| - 1], k, r);
    }
  }

  /** The database holds the chain `c`: every record of it is written, nothing else decodes to a
      valid record under one of its hashes, and nothing else is as high as its top. */
  ghost predicate HoldsChain(entries: seq<Entry>, hash: BlockHasher, c: seq<Record>) {
    var recs := ScannedRecords(entries);
    && Decodable(entries) && c != [] && LinkedChain(c, hash)
    && (forall i :: 0 <= i < |c| ==> Canonical(c[i]) && IsWritten(entries, c[i]))
    && (forall i, r :: 0 <= i < |c| && r in recs && hash(r.header) == hash(c[i].header) ==> r == c[i])
    && (forall r :: r in recs ==> r.height < |c| - 1 || r == c[|c| - 1])
  }

  lemma ChainRecordIsInTable(entries: seq<Entry>, hash: BlockHasher, c: seq<Record>, i: nat)
    requires HoldsChain(entries, hash, c) && i < |c|
    ensures c[i] in ScannedRecords(entries)
    ensures var table := Table(ScannedRecords(entries), hash);
      hash(c[i].header) in table && table[hash(c[i].header)] == c[i]
  {
    assert Canonical(c[i]) && IsWritten(entries, c[i]) && c[i].IsValid();
    var k :| 0 <= k < |entries| && IsIndexEntry(entries[k]) && entries[k].value == EncodeRecord(c[i]);
    WrittenIsScanned(entries, k, c[i]);
    var recs := ScannedRecords(entries);
    hide EncodeRecord, Canonical, IsWritten, Decodable, ScannedRecords, LinkedChain;
    var j :| 0 <= j < |recs| && recs[j] == c[i];
    HashIsInTable(recs, hash, j);
    TableEntries(recs, hash, hash(c[i].header));
  }

  lemma {:induction false} HashIsInTable(recs: seq<Record>, hash: BlockHasher, j: nat)
    requires j < |recs|
    ensures hash(recs[j].header) in Table(recs, hash)
  {
    if j == |recs| - 1 {
    } else {
      HashIsInTable(recs[..|recs| - 1], hash, j);
    }
  }

  lemma HeldTopIsTip(entries: seq<Entry>, hash: BlockHasher, c: seq<Record>)
    requires HoldsChain(entries, hash, c)
    ensures var recs := ScannedRecords(entries); recs != [] && recs[TipIndex(recs)] == c[|c| - 1]
    ensures c[|c| - 1].height == |c| - 1
  {
    var recs, top := ScannedRecords(entries), |c| - 1;
    ChainRecordIsInTable(entries, hash, c, top);
    assert c[top].height == top;
    var j :| 0 <= j < |recs| && recs[j] == c[top];
    assert recs[TipIndex(recs)] in recs && recs[TipIndex(recs)].height >= recs[j].height;
  }

  lemma HeldRecordIsLinked(entries: seq<Entry>, hash: BlockHasher, c: seq<Record>, i: nat)
    requires HoldsChain(entries, hash, c) && i < |c|
    ensures c[i].height == i && KeyAt(hash(c[|c| - 1].header), c, i) == hash(c[i].header)
  {
    hide HoldsChain, LinkedChain, KeyAt;
    HeldIsLinked(entries, hash, c);
    LinkedRecord(c, hash, i);
  }

  lemma LinkedRecord(c: seq<Record>, hash: BlockHasher, i: nat)
    requires LinkedChain(c, hash) && i < |c|
    ensures c[i].height == i && KeyAt(hash(c[|c| - 1].header), c, i) == hash(c[i].header)
  {
  }

  lemma HeldIsLinked(entries: seq<Entry>, hash: BlockHasher, c: seq<Record>)
    requires HoldsChain(entries, hash, c)
    ensures LinkedChain(c, hash)
  {
    hide LinkedChain;
  }

  lemma HeldChainIsAncestry(entries: seq<Entry>, hash: BlockHasher, c: seq<Record>)
    requires HoldsChain(entries, hash, c)
    ensures Ancestry(Table(ScannedRecords(entries), hash), hash(c[|c| - 1].header), c)
  {
    var table, tip := Table(ScannedRecords(entries), hash), hash(c[|c| - 1].header);
    assert |c| > 0;
    hide Table, ScannedRecords, HoldsChain, KeyAt;
    forall i | 0 <= i < |c|
      ensures c[i].height == i && KeyAt(tip, c, i) in table && table[KeyAt(tip, c, i)] == c[i]
    {
      ChainRecordIsInTable(entries, hash, c, i);
      HeldRecordIsLinked(entries, hash, c, i);
    }
  }

  lemma SameLengthSameAncestry(table: map<BlockHash, Record>, tip: BlockHash, c: seq<Record>, d: seq<Record>)
    requires Ancestry(table, tip, c) && Ancestry(table, tip, d) && |c| == |d|
    ensures c == d
  {
    hide Ancestry;
    forall i | 0 <= i < |c| ensures c[i] == d[i] {
      AncestryIsUnique(table, tip, c, d, |c| - 1 - i);
    }
  }

  /** The loader gives back exactly the chain that the database holds. */
  lemma HeldChainIsLoaded(entries: seq<Entry>, hash: BlockHasher, overflowChecks: bool, c: seq<Record>, r: LoadResult)
    requires HoldsChain(entries, hash, c) && LoadsAs(entries, hash, overflowChecks, r)
    ensures r == Loaded(c)
  {
    HeldTopIsTip(entries, hash, c);
    HeldChainIsAncestry(entries, hash, c);
    var table, tip := Table(ScannedRecords(entries), hash), hash(c[|c| - 1].header);
    assert Decodable(entries);
    hide HoldsChain, Table, Ancestry, ScannedRecords, Decodable;
    SameLengthSameAncestry(table, tip, c, r.records);
  }

  // ---------- the reverse index ----------

  datatype Index = Index(records: seq<Record>, hashToHeight: map<BlockHash, I32>)

  function HashToHeight(records: seq<Record>, hash: BlockHasher): map<BlockHash, I32> {
    if records == [] then map[]
    else HashToHeight(records[..|records| - 1], hash)
      [hash(records[|records| - 1].header) := records[|records| - 1].height]
  }

  method NewIndex(entries: seq<Entry>, hash: BlockHasher, overflowChecks: bool) returns (r: Result<Index, LoadResult>)
    ensures r.Ok? <==> Loadable(entries, hash, overflowChecks)
    ensures r.Ok? ==> LoadsAs(entries, hash, overflowChecks, Loaded(r.value.records))
    ensures r.Ok? ==> LinkedChain(r.value.records, hash)
    ensures r.Ok? ==> r.value.hashToHeight == HashToHeight(r.value.records, hash)
    ensures r.Ok? ==> |r.value.records| == ChainLength(ScannedRecords(entries))
    ensures r.Err? ==> !r.error.Loaded? && LoadsAs(entries, hash, overflowChecks, r.error)
  {
    var loaded := LoadBlockIndex(entries, hash, overflowChecks);
    if !loaded.Loaded? {
      return Err(loaded);
    }
    var records := loaded.records;
    ghost var recs := ScannedRecords(entries);
    if records != [] {
      assert recs != [];
      LoadedChainIsLinked(recs, hash, hash(recs[TipIndex(recs)].header), records);
    }
    var hashToHeight := ReverseIndex(records, hash);
    r := Ok(Index(records, hashToHeight));
  }

  method ReverseIndex(records: seq<Record>, hash: BlockHasher) returns (hashToHeight: map<BlockHash, I32>)
    ensures hashToHeight == HashToHeight(records, hash)
  {
    hashToHeight := map[];
    var i := 0;
    while i < |records|
      invariant 0 <= i <= |records|
      invariant hashToHeight == HashToHeight(records[..i], hash)
    {
      assert records[..i + 1][..i] == records[..i];
      hashToHeight := hashToHeight[hash(records[i].header) := records[i].height];
      i := i + 1;
    }
    assert records[..i] == records;
  }

  ghost function ChainLength(recs: seq<Record>): int {
    if recs == [] then 0 else recs[TipIndex(recs)].height + 1
  }

  function HashFromHeight(index: Index, hash: BlockHasher, height: nat): Option<BlockHash> {
    if height < |index.records| then Some(hash(index.records[height].header)) else None
  }

  function HeightFromHash(index: Index, h: BlockHash): Option<int> {
    if h in index.hashToHeight then Some(index.hashToHeight[h]) else None
  }

  /** Some record of the index has block hash `h`. */
  ghost predicate HashAt(records: seq<Record>, hash: BlockHasher, h: BlockHash) {
    exists i :: 0 <= i < |records| && hash(records[i].header) == h
  }

  /** What the reverse index must say about hash `h`. */
  ghost predicate IndexedRight(records: seq<Record>, hash: BlockHasher, h: BlockHash) {
    && (h in HashToHeight(records, hash) <==> HashAt(records, hash, h))
    && (forall i :: 0 <= i < |records| && hash(records[i].header) == h && h in HashToHeight(records, hash) ==>
          HashToHeight(records, hash)[h] == i)
  }

  lemma {:induction false} ReverseIndexEntries(records: seq<Record>, hash: BlockHasher, h: BlockHash)
    requires LinkedChain(records, hash)
    ensures IndexedRight(records, hash, h)
  {
    if records == [] {
    } else {
      var before, last := records[..|records| - 1], |records| - 1;
      ReverseIndexEntries(before, hash, h);
      assert HashAt(records, hash, h) <==> HashAt(before, hash, h) || hash(records[last].header) == h by {
        assert forall i :: 0 <= i < last ==> records[i] == before[i];
      }
      forall i | 0 <= i < |records| && hash(records[i].header) == h && h in HashToHeight(records, hash)
        ensures HashToHeight(records, hash)[h] == i
      {
        if i < last {
          assert before[i] == records[i];
          assert hash(records[last].header) != h;
        }
      }
    }
  }

  /** On every index the loader builds, the two lookups are inverse to each other. */
  lemma LookupsAreInverse(index: Index, hash: BlockHasher, height: nat, h: BlockHash)
    requires LinkedChain(index.records, hash)
    requires index.hashToHeight == HashToHeight(index.records, hash)
    ensures HashFromHeight(index, hash, height) == Some(h) <==> HeightFromHash(index, h) == Some(height)
  {
    ReverseIndexEntries(index.records, hash, h);
    if height < |index.records| {
      ReverseIndexEntries(index.records, hash, hash(index.records[height].header));
    }
  }

  /** The blocks before the first one that was not downloaded. */
  method GetBlockCount(index: Index) returns (count: nat)
    ensures count <= |index.records|
    ensures forall h :: 0 <= h < count ==> index.records[h].nTx != 0
    ensures count < |index.records| ==> index.records[count].nTx == 0
  {
    count := 0;
    while count < |index.records|
      invariant 0 <= count <= |index.records|
      invariant forall h :: 0 <= h < count ==> index.records[h].nTx != 0
    {
      if index.records[count].nTx == 0 {
        return;
      }
      count := count + 1;
    }
  }
}
