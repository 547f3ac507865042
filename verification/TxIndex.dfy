/** The transaction index: where a transaction lies on disk, and at which height. */
module TxIndex {
  import opened Bits
  import opened Wrappers
  import opened IndexRecord
  import opened Chain
  import opened BlockIndex
  import Varint

  datatype TxPosition = TxPosition(txid: Txid, file: I32, dataPos: U32, txOffset: U32)

  datatype TxDb = TxDb(db: map<seq<byte>, seq<byte>>, filePosToHeight: map<(I32, U32), I32>, genesisTxid: Txid) {
    predicate IsGenesisTx(txid: Txid) {
      txid == genesisTxid
    }
  }

  datatype TxError =
    | TransactionRecordNotFound(txid: Txid)
    | CannotFindHeight(txid: Txid)
    | UnexpectedEof

  /** The letter t, then the txid. */
  function TxKey(txid: Txid): seq<byte> {
    ['t' as int] + txid
  }

  // ---------- the entry of a transaction ----------

  function EncodePosition(p: TxPosition): seq<byte> {
    EncodeIf(true, p.file) + EncodeIf(true, p.dataPos) + EncodeIf(true, p.txOffset)
  }

  function ParsePosition(txid: Txid, value: seq<byte>): Option<TxPosition> {
    var file :- ReadField(value, true, 0);
    var dataPos :- ReadField(file.rest, true, 0);
    var txOffset :- ReadField(dataPos.rest, true, 0);
    Some(TxPosition(txid, AsI32(file.value), AsU32(dataPos.value), AsU32(txOffset.value)))
  }

  /** A written entry reads back as the position it was written for, whatever follows it. */
  lemma PositionRoundTrip(p: TxPosition, rest: seq<byte>)
    ensures ParsePosition(p.txid, EncodePosition(p) + rest) == Some(p)
  {
    var s2 := EncodeIf(true, p.txOffset) + rest;
    var s1 := EncodeIf(true, p.dataPos) + s2;
    assert EncodePosition(p) + rest == EncodeIf(true, p.file) + s1;
    FieldReadBack(EncodePosition(p) + rest, true, p.file, 0, s1);
    FieldReadBack(s1, true, p.dataPos, 0, s2);
    FieldReadBack(s2, true, p.txOffset, 0, rest);
    WordRoundTrip(p.file);
    WordRoundTrip(p.dataPos);
    WordRoundTrip(p.txOffset);
    hide EncodeIf, ReadField;
  }

  function TxPositionOf(db: TxDb, txid: Txid): Result<TxPosition, TxError> {
    if TxKey(txid) !in db.db then Err(TransactionRecordNotFound(txid))
    else
      var p := ParsePosition(txid, db.db[TxKey(txid)]);
      if p.None? then Err(UnexpectedEof) else Ok(p.value)
  }

  method GetTxPosition(db: TxDb, txid: Txid) returns (r: Result<TxPosition, TxError>)
    ensures r == TxPositionOf(db, txid)
  {
    var key: seq<byte> := ['t' as int];
    key := key + txid;
    if key !in db.db {
      return Err(TransactionRecordNotFound(txid));
    }
    var reader := new Varint.Cursor(db.db[key]);
    assert reader.Rest() == db.db[key];
    var file := ReadOptional(reader, true, 0);
    if file.None? { return Err(UnexpectedEof); }
    var dataPos := ReadOptional(reader, true, 0);
    if dataPos.None? { return Err(UnexpectedEof); }
    var txOffset := ReadOptional(reader, true, 0);
    if txOffset.None? { return Err(UnexpectedEof); }
    r := Ok(TxPosition(txid, AsI32(file.value), AsU32(dataPos.value), AsU32(txOffset.value)));
  }

  /** The database holds the entry that was written for `p`. */
  predicate IndexedAt(db: TxDb, p: TxPosition) {
    TxKey(p.txid) in db.db && db.db[TxKey(p.txid)] == EncodePosition(p)
  }

  lemma IndexedIsFound(db: TxDb, p: TxPosition)
    requires IndexedAt(db, p)
    ensures TxPositionOf(db, p.txid) == Ok(p)
  {
    PositionRoundTrip(p, []);
    assert EncodePosition(p) + [] == EncodePosition(p);
  }

  // ---------- from the position back to the height ----------

  function Place(r: Record): (I32, U32) {
    (r.file, r.dataPos)
  }

  /** The heights by position; of two records at one position the later stays. */
  function HeightsByPlace(records: seq<Record>): map<(I32, U32), I32> {
    if records == [] then map[]
    else HeightsByPlace(records[..|records| - 1])[Place(records[|records| - 1]) := records[|records| - 1].height]
  }

  predicate DistinctPlaces(records: seq<Record>) {
    forall i, j :: 0 <= i < j < |records| ==> Place(records[i]) != Place(records[j])
  }

  ghost predicate OneRecordPerHeight(records: seq<Record>) {
    forall i :: 0 <= i < |records| ==> records[i].height == i
  }

  /** Record h is the last one at its position. */
  ghost predicate LastAtItsPlace(records: seq<Record>, h: nat) {
    && h < |records|
    && forall k :: h < k < |records| ==> Place(records[k]) != Place(records[h])
  }

  lemma {:induction false} HeightsMeaning(records: seq<Record>, place: (I32, U32), h: int)
    requires OneRecordPerHeight(records)
    ensures place in HeightsByPlace(records) && HeightsByPlace(records)[place] == h
       <==> h >= 0 && LastAtItsPlace(records, h) && Place(records[h]) == place
  {
    if records == [] {
    } else {
      var before, last := records[..|records| - 1], |records| - 1;
      HeightsMeaning(before, place, h);
      if 0 <= h < last {
        assert LastAtItsPlace(records, h) <==>
          LastAtItsPlace(before, h) && Place(records[last]) != Place(records[h]) by {
          assert forall k :: 0 <= k < last ==> before[k] == records[k];
        }
      }
    }
  }

  /** The reverse table gives every block its own height exactly when no two blocks of the
      chain lie at the same position. */
  lemma HeightsAreRightIff(records: seq<Record>)
    requires OneRecordPerHeight(records)
    ensures DistinctPlaces(records) <==> forall h :: 0 <= h < |records| ==> HasHeight(records, h)
  {
    forall h | 0 <= h < |records| ensures HasHeight(records, h) <==> LastAtItsPlace(records, h) {
      HeightsMeaning(records, Place(records[h]), h);
    }
    hide HasHeight, OneRecordPerHeight, Place;
    if !DistinctPlaces(records) {
      var i, j :| 0 <= i < j < |records| && Place(records[i]) == Place(records[j]);
      assert !LastAtItsPlace(records, i);
    }
  }

  ghost predicate HasHeight(records: seq<Record>, h: nat)
    requires h < |records|
  {
    Place(records[h]) in HeightsByPlace(records) && HeightsByPlace(records)[Place(records[h])] == h
  }

  /** The table has height h for the position of this record. */
  predicate LeadsTo(db: TxDb, record: Record, h: int) {
    Place(record) in db.filePosToHeight && db.filePosToHeight[Place(record)] == h
  }

  method OpenTxDb(db: map<seq<byte>, seq<byte>>, index: Index, genesisTxid: Txid) returns (r: TxDb)
    ensures r == TxDb(db, HeightsByPlace(index.records), genesisTxid)
    ensures OneRecordPerHeight(index.records) ==> forall h :: 0 <= h < |index.records| ==>
      (LeadsTo(r, index.records[h], h) <==> LastAtItsPlace(index.records, h))
  {
    var records, filePosToHeight, i := index.records, map[], 0;
    while i < |records|
      invariant 0 <= i <= |records|
      invariant filePosToHeight == HeightsByPlace(records[..i])
    {
      assert records[..i + 1][..i] == records[..i];
      filePosToHeight := filePosToHeight[Place(records[i]) := records[i].height];
      i := i + 1;
    }
    assert records[..i] == records;
    r := TxDb(db, filePosToHeight, genesisTxid);
    if OneRecordPerHeight(records) {
      forall h | 0 <= h < |records| ensures LeadsTo(r, records[h], h) <==> LastAtItsPlace(records, h) {
        HeightsMeaning(records, Place(records[h]), h);
      }
    }
  }

  /** `h as usize`: a negative height wraps. */
  function AsUsize(h: I32): U64 {
    if h < 0 then h + 0x1_0000_0000_0000_0000 else h
  }

  method GetBlockHeight(db: TxDb, txid: Txid) returns (r: Result<U64, TxError>)
    ensures r == BlockHeightOf(db, txid)
    ensures db.IsGenesisTx(txid) ==> r == Ok(0)
    ensures !db.IsGenesisTx(txid) && TxKey(txid) !in db.db ==> r == Err(TransactionRecordNotFound(txid))
    ensures r == Err(CannotFindHeight(txid)) <==>
      (!db.IsGenesisTx(txid) && TxPositionOf(db, txid).Ok?
       && (TxPositionOf(db, txid).value.file, TxPositionOf(db, txid).value.dataPos) !in db.filePosToHeight)
  {
    if db.IsGenesisTx(txid) {
      return Ok(0);
    }
    var p := GetTxPosition(db, txid);
    if p.Err? {
      return Err(p.error);
    }
    var place := (p.value.file, p.value.dataPos);
    if place in db.filePosToHeight {
      r := Ok(AsUsize(db.filePosToHeight[place]));
    } else {
      r := Err(CannotFindHeight(txid));
    }
  }

  function BlockHeightOf(db: TxDb, txid: Txid): Result<U64, TxError> {
    if db.IsGenesisTx(txid) then Ok(0)
    else
      match TxPositionOf(db, txid)
      case Err(e) => Err(e)
      case Ok(p) =>
        if (p.file, p.dataPos) in db.filePosToHeight then Ok(AsUsize(db.filePosToHeight[(p.file, p.dataPos)]))
        else Err(CannotFindHeight(txid))
  }

  /** On a loaded chain whose blocks lie at distinct positions, an indexed transaction is found
      at height h exactly when the block at h lies where its entry says; there is one such h. */
  lemma HeightIsFoundIff(db: TxDb, records: seq<Record>, p: TxPosition, h: nat)
    requires OneRecordPerHeight(records) && DistinctPlaces(records)
    requires db.filePosToHeight == HeightsByPlace(records)
    requires TxPositionOf(db, p.txid) == Ok(p) && !db.IsGenesisTx(p.txid)
    ensures BlockHeightOf(db, p.txid) == Ok(h) <==> h < |records| && Place(records[h]) == (p.file, p.dataPos)
    ensures BlockHeightOf(db, p.txid).Err? <==>
      forall k :: 0 <= k < |records| ==> Place(records[k]) != (p.file, p.dataPos)
  {
    var place := (p.file, p.dataPos);
    HeightsMeaning(records, place, h);
    if place in db.filePosToHeight {
      var k := db.filePosToHeight[place];
      HeightsMeaning(records, place, k);
      assert Place(records[k]) == place;
    } else {
      forall k | 0 <= k < |records| ensures Place(records[k]) != place {
        HeightsMeaning(records, place, k);
      }
    }
  }
}
