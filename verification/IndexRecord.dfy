/** Block index records: their flag-dependent layout in the index database and its decoder. */
module IndexRecord {
  import opened Bits
  import opened Wrappers
  import Varint

  const BLOCK_VALID_HEADER: U32 := 1
  const BLOCK_VALID_TREE: U32 := 2
  const BLOCK_VALID_TRANSACTIONS: U32 := 3
  const BLOCK_VALID_CHAIN: U32 := 4
  const BLOCK_VALID_SCRIPTS: U32 := 5
  const BLOCK_HAVE_DATA: U32 := 8
  const BLOCK_HAVE_UNDO: U32 := 16

  const HEADER_SIZE: nat := 80

  /** A serialized block header: version, previous hash, merkle root, time, bits, nonce. */
  type Header = h: seq<byte> | |h| == 80 witness seq(80, _ => 0)

  type BlockHash = h: seq<byte> | |h| == 32 witness seq(32, _ => 0)

  function PrevBlockHash(h: Header): BlockHash {
    h[4..36]
  }

  datatype Record = Record(
    version: I32, height: I32, status: U32, nTx: U32,
    file: I32, dataPos: U32, undoPos: U32, header: Header)
  {
    predicate IsValid() {
      height == 0 || (And(status, BlockValidMask()) >= BLOCK_VALID_SCRIPTS && HasData(status))
    }
  }

  function BlockValidMask(): nat {
    Or(Or(Or(Or(BLOCK_VALID_HEADER, BLOCK_VALID_TREE), BLOCK_VALID_TRANSACTIONS), BLOCK_VALID_CHAIN),
       BLOCK_VALID_SCRIPTS)
  }

  predicate HasData(status: U32) {
    And(status, BLOCK_HAVE_DATA) > 0
  }

  predicate HasUndo(status: U32) {
    And(status, BLOCK_HAVE_UNDO) > 0
  }

  predicate HasFile(status: U32) {
    And(status, Or(BLOCK_HAVE_DATA, BLOCK_HAVE_UNDO)) > 0
  }

  // ---------- what the flags mean ----------

  lemma {:induction false} AndDistributesOverOr(a: nat, b: nat, c: nat)
    ensures And(a, Or(b, c)) == Or(And(a, b), And(a, c))
    decreases a
  {
    if a == 0 || b == 0 || c == 0 {
    } else {
      hide And, Or;
      AndDistributesOverOr(a / 2, b / 2, c / 2);
      OrByDigits(b, c);
      AndByDigits(a, b);
      AndByDigits(a, c);
      AndByDigits(a, Or(b, c));
      OrByDigits(And(a, b), And(a, c));
    }
  }

  lemma AndByDigits(a: nat, b: nat)
    ensures And(a, b) == (if a % 2 == 1 && b % 2 == 1 then 1 else 0) + 2 * And(a / 2, b / 2)
    ensures And(a, b) / 2 == And(a / 2, b / 2)
  {
  }

  lemma OrByDigits(a: nat, b: nat)
    ensures Or(a, b) == (if a % 2 == 1 || b % 2 == 1 then 1 else 0) + 2 * Or(a / 2, b / 2)
  {
  }

  /** The file number is stored exactly when block data or undo data is. */
  lemma FilePresence(status: U32)
    ensures HasFile(status) <==> HasData(status) || HasUndo(status)
  {
    AndDistributesOverOr(status, BLOCK_HAVE_DATA, BLOCK_HAVE_UNDO);
    var d, u := And(status, BLOCK_HAVE_DATA), And(status, BLOCK_HAVE_UNDO);
    OrIsPositive(d, u);
  }

  lemma {:induction false} OrIsPositive(a: nat, b: nat)
    ensures Or(a, b) > 0 <==> a > 0 || b > 0
    decreases a + b
  {
    if a == 0 || b == 0 {
    } else {
      OrIsPositive(a / 2, b / 2);
    }
  }

  /** A record counts as valid when it is the genesis block, or its low three status bits
      reach the scripts level and its block data is stored. */
  lemma ValidityMeaning(r: Record)
    ensures r.IsValid() <==> r.height == 0 || (r.status % 8 >= 5 && r.status / 8 % 2 == 1)
  {
    assert BlockValidMask() == 7 by {
      assert Or(1, 2) == 3;
      assert Or(3, 3) == 3;
      assert Or(3, 4) == 7 by { assert Or(1, 2) == 3; }
      assert Or(7, 5) == 7 by { assert Or(3, 2) == 3; }
    }
    assert Pow2(3) == 8;
    AndLowMaskIsModulo(r.status, 3);
    AndOneBit(r.status, 3);
  }

  // ---------- the layout ----------

  function EncodeIf(present: bool, x: int): seq<byte> {
    if present then Varint.Encode(AsU32(x)) else []
  }

  function EncodeHead(r: Record): seq<byte> {
    EncodeIf(true, r.version) + EncodeIf(true, r.height) + EncodeIf(true, r.status) + EncodeIf(true, r.nTx)
  }

  function EncodePlace(r: Record): seq<byte> {
    EncodeIf(HasData(r.status) || HasUndo(r.status), r.file)
    + EncodeIf(HasData(r.status), r.dataPos)
    + EncodeIf(HasUndo(r.status), r.undoPos)
  }

  function EncodeRecord(r: Record): seq<byte> {
    EncodeHead(r) + EncodePlace(r) + r.header
  }

  /** Fields that the flags leave out hold the decoder's markers for "absent". */
  predicate Canonical(r: Record) {
    && (!HasData(r.status) && !HasUndo(r.status) ==> r.file == -1)
    && (!HasData(r.status) ==> r.dataPos == U32_MAX)
    && (!HasUndo(r.status) ==> r.undoPos == U32_MAX)
  }

  datatype Field = Field(value: nat, rest: seq<byte>)

  /** One optional number at the front of `s`. */
  function ReadField(s: seq<byte>, present: bool, absent: nat): Option<Field> {
    if present then
      var v :- Varint.ReadFrom(s);
      Some(Field(v.value, s[v.length..]))
    else Some(Field(absent, s))
  }

  /** The four numbers every record starts with, before their 32-bit casts. */
  datatype Head = Head(version: nat, height: nat, status: nat, nTx: nat, rest: seq<byte>)

  /** The numbers whose presence the flags decide. */
  datatype Place = Place(file: nat, dataPos: nat, undoPos: nat, rest: seq<byte>)

  datatype Parsed = Parsed(record: Record, rest: seq<byte>)

  function ParseHead(s: seq<byte>): Option<Head> {
    var version :- ReadField(s, true, 0);
    var height :- ReadField(version.rest, true, 0);
    var status :- ReadField(height.rest, true, 0);
    var nTx :- ReadField(status.rest, true, 0);
    Some(Head(version.value, height.value, status.value, nTx.value, nTx.rest))
  }

  function ReadPlace(s: seq<byte>, hasFile: bool, hasData: bool, hasUndo: bool): Option<Place> {
    var file :- ReadField(s, hasFile, U32_MAX);
    var dataPos :- ReadField(file.rest, hasData, U32_MAX);
    var undoPos :- ReadField(dataPos.rest, hasUndo, U32_MAX);
    Some(Place(file.value, dataPos.value, undoPos.value, undoPos.rest))
  }

  function ParsePlace(s: seq<byte>, flags: U32): Option<Place> {
    ReadPlace(s, HasFile(flags), HasData(flags), HasUndo(flags))
  }

  function MakeRecord(h: Head, p: Place, header: Header): Record {
    Record(AsI32(h.version), AsI32(h.height), AsU32(h.status), AsU32(h.nTx),
           AsI32(p.file), AsU32(p.dataPos), AsU32(p.undoPos), header)
  }

  /** The record at the front of `s` and what follows it. */
  function ParseRecord(s: seq<byte>): Option<Parsed> {
    var h :- ParseHead(s);
    var p :- ParsePlace(h.rest, AsU32(h.status));
    if |p.rest| < HEADER_SIZE then None
    else Some(Parsed(MakeRecord(h, p, p.rest[..HEADER_SIZE]), p.rest[HEADER_SIZE..]))
  }

  lemma FieldReadBack(s: seq<byte>, present: bool, x: int, absent: nat, rest: seq<byte>)
    requires s == EncodeIf(present, x) + rest
    ensures ReadField(s, present, absent) == Some(Field(if present then AsU32(x) else absent, rest))
  {
    if present {
      var code := Varint.Encode(AsU32(x));
      Varint.ReadBack(AsU32(x), rest);
      assert s[|code|..] == rest;
    } else {
      assert s == rest;
    }
  }

  lemma WordRoundTrip(x: int)
    ensures -0x8000_0000 <= x < 0x8000_0000 ==> AsI32(AsU32(x)) == x
    ensures 0 <= x < 0x1_0000_0000 ==> AsU32(AsU32(x)) == x
    ensures AsI32(U32_MAX) == -1 && AsU32(U32_MAX) == U32_MAX
  {
  }

  lemma HeadRoundTrip(s: seq<byte>, r: Record, rest: seq<byte>)
    requires s == EncodeHead(r) + rest
    ensures ParseHead(s)
         == Some(Head(AsU32(r.version), AsU32(r.height), AsU32(r.status), AsU32(r.nTx), rest))
  {
    var s3 := EncodeIf(true, r.nTx) + rest;
    var s2 := EncodeIf(true, r.status) + s3;
    var s1 := EncodeIf(true, r.height) + s2;
    assert s == EncodeIf(true, r.version) + s1;
    FieldReadBack(s, true, r.version, 0, s1);
    FieldReadBack(s1, true, r.height, 0, s2);
    FieldReadBack(s2, true, r.status, 0, s3);
    FieldReadBack(s3, true, r.nTx, 0, rest);
  }

  lemma PlaceRoundTrip(s: seq<byte>, r: Record, rest: seq<byte>)
    requires Canonical(r) && s == EncodePlace(r) + rest
    ensures ParsePlace(s, r.status) == Some(Place(AsU32(r.file), AsU32(r.dataPos), AsU32(r.undoPos), rest))
  {
    FilePresence(r.status);
    AbsentWords();
    PlaceFields(s, r, HasFile(r.status), HasData(r.status), HasUndo(r.status), rest);
  }

  lemma AbsentWords()
    ensures AsU32(-1) == U32_MAX && AsU32(U32_MAX) == U32_MAX
  {
  }

  lemma PlaceFields(s: seq<byte>, r: Record, file: bool, data: bool, undo: bool, rest: seq<byte>)
    requires s == EncodeIf(file, r.file) + EncodeIf(data, r.dataPos) + EncodeIf(undo, r.undoPos) + rest
    ensures ReadPlace(s, file, data, undo)
         == Some(Place(if file then AsU32(r.file) else U32_MAX, if data then AsU32(r.dataPos) else U32_MAX,
                       if undo then AsU32(r.undoPos) else U32_MAX, rest))
  {
    hide ReadField, EncodeIf, AsU32;
    var s2 := EncodeIf(undo, r.undoPos) + rest;
    var s1 := EncodeIf(data, r.dataPos) + s2;
    assert s == EncodeIf(file, r.file) + s1;
    FieldReadBack(s, file, r.file, U32_MAX, s1);
    PlaceTail(s1, s2, r, data, undo, rest);
  }

  lemma PlaceTail(s1: seq<byte>, s2: seq<byte>, r: Record, data: bool, undo: bool, rest: seq<byte>)
    requires s1 == EncodeIf(data, r.dataPos) + s2 && s2 == EncodeIf(undo, r.undoPos) + rest
    ensures ReadField(s1, data, U32_MAX) == Some(Field(if data then AsU32(r.dataPos) else U32_MAX, s2))
    ensures ReadField(s2, undo, U32_MAX) == Some(Field(if undo then AsU32(r.undoPos) else U32_MAX, rest))
  {
    FieldReadBack(s1, data, r.dataPos, U32_MAX, s2);
    FieldReadBack(s2, undo, r.undoPos, U32_MAX, rest);
  }

  lemma MakeRecordRoundTrip(r: Record, rest: seq<byte>)
    ensures MakeRecord(Head(AsU32(r.version), AsU32(r.height), AsU32(r.status), AsU32(r.nTx), rest),
                       Place(AsU32(r.file), AsU32(r.dataPos), AsU32(r.undoPos), rest), r.header) == r
  {
    WordRoundTrip(r.version);
    WordRoundTrip(r.height);
    WordRoundTrip(r.status);
    WordRoundTrip(r.nTx);
    WordRoundTrip(r.file);
    WordRoundTrip(r.dataPos);
    WordRoundTrip(r.undoPos);
  }

  lemma CanonicalRoundTrip(r: Record, rest: seq<byte>)
    requires Canonical(r)
    ensures ParseRecord(EncodeRecord(r) + rest) == Some(Parsed(r, rest))
  {
    hide EncodeHead, EncodePlace, ParseHead, ParsePlace, AsU32, AsI32, Canonical;
    var tail := r.header + rest;
    var middle := EncodePlace(r) + tail;
    assert EncodeRecord(r) + rest == EncodeHead(r) + middle;
    HeadRoundTrip(EncodeRecord(r) + rest, r, middle);
    WordRoundTrip(r.status);
    PlaceRoundTrip(middle, r, tail);
    assert tail[..HEADER_SIZE] == r.header && tail[HEADER_SIZE..] == rest;
    MakeRecordRoundTrip(r, tail);
  }

  lemma AbsentPlace(h: Head, s: seq<byte>)
    requires ParsePlace(s, AsU32(h.status)).Some?
    ensures var p, flags := ParsePlace(s, AsU32(h.status)).value, AsU32(h.status);
      && (!HasData(flags) && !HasUndo(flags) ==> p.file == U32_MAX)
      && (!HasData(flags) ==> p.dataPos == U32_MAX)
      && (!HasUndo(flags) ==> p.undoPos == U32_MAX)
  {
    FilePresence(AsU32(h.status));
  }

  /** The decoder marks absent fields, whatever it reads. */
  lemma ParsedIsCanonical(s: seq<byte>)
    ensures ParseRecord(s).Some? ==> Canonical(ParseRecord(s).value.record)
  {
    if ParseRecord(s).Some? {
      var h := ParseHead(s).value;
      AbsentPlace(h, h.rest);
      assert AsI32(U32_MAX) == -1 && AsU32(U32_MAX) == U32_MAX;
      hide ParseHead, ParsePlace, HasData, HasUndo, AsI32, AsU32;
    }
  }

  /** A record comes back whole, with decoding stopped exactly where the record ends, if and only
      if its absent fields hold the decoder's markers. */
  lemma RecordRoundTrip(r: Record, rest: seq<byte>)
    ensures ParseRecord(EncodeRecord(r) + rest) == Some(Parsed(r, rest)) <==> Canonical(r)
  {
    hide ParseRecord, EncodeRecord, Canonical;
    if Canonical(r) {
      CanonicalRoundTrip(r, rest);
    } else {
      ParsedIsCanonical(EncodeRecord(r) + rest);
    }
  }

  /** Two different canonical records never share an encoding, nor is one the beginning of the
      other. */
  lemma RecordCodeIsPrefixFree(a: Record, b: Record, rest: seq<byte>)
    requires Canonical(a) && Canonical(b)
    ensures EncodeRecord(a) == EncodeRecord(b) + rest ==> a == b && rest == []
  {
    if EncodeRecord(a) == EncodeRecord(b) + rest {
      RecordRoundTrip(a, []);
      RecordRoundTrip(b, rest);
      assert EncodeRecord(a) + [] == EncodeRecord(a);
    }
  }

  // ---------- the decoder ----------

  method ReadOptional(reader: Varint.Cursor, present: bool, absent: nat) returns (r: Option<nat>)
    requires reader.Valid()
    modifies reader
    ensures reader.Valid()
    ensures var f := ReadField(old(reader.Rest()), present, absent);
      if f.None? then r.None? else r == Some(f.value.value) && reader.Rest() == f.value.rest
  {
    if present {
      var v := reader.ReadVarint();
      r := if v.None? then None else Some(v.value);
    } else {
      r := Some(absent);
    }
  }

  method DecodeHead(reader: Varint.Cursor) returns (h: Option<Head>)
    requires reader.Valid()
    modifies reader
    ensures reader.Valid()
    ensures h == ParseHead(old(reader.Rest()))
    ensures h.Some? ==> reader.Rest() == h.value.rest
  {
    var version := ReadOptional(reader, true, 0);
    if version.None? { return None; }
    var height := ReadOptional(reader, true, 0);
    if height.None? { return None; }
    var status := ReadOptional(reader, true, 0);
    if status.None? { return None; }
    var nTx := ReadOptional(reader, true, 0);
    if nTx.None? { return None; }
    h := Some(Head(version.value, height.value, status.value, nTx.value, reader.data[reader.pos..]));
  }

  method DecodePlace(reader: Varint.Cursor, flags: U32) returns (p: Option<Place>)
    requires reader.Valid()
    modifies reader
    ensures reader.Valid()
    ensures p == ParsePlace(old(reader.Rest()), flags)
    ensures p.Some? ==> reader.Rest() == p.value.rest
  {
    var file := ReadOptional(reader, HasFile(flags), U32_MAX);
    if file.None? { return None; }
    var dataPos := ReadOptional(reader, HasData(flags), U32_MAX);
    if dataPos.None? { return None; }
    var undoPos := ReadOptional(reader, HasUndo(flags), U32_MAX);
    if undoPos.None? { return None; }
    p := Some(Place(file.value, dataPos.value, undoPos.value, reader.data[reader.pos..]));
  }

  /** The record a database value decodes to; bytes after the record are ignored. */
  function Decoded(values: seq<byte>): Option<Record> {
    match ParseRecord(values)
    case None => None
    case Some(p) => Some(p.record)
  }

  method Decode(values: seq<byte>) returns (r: Option<Record>)
    ensures r == Decoded(values)
  {
    var reader := new Varint.Cursor(values);
    assert reader.Rest() == values;
    var h := DecodeHead(reader);
    if h.None? { return None; }
    var p := DecodePlace(reader, AsU32(h.value.status));
    if p.None? { return None; }
    var header := reader.ReadExact(HEADER_SIZE);
    if header.None? { return None; }
    r := Some(MakeRecord(h.value, p.value, header.value));
  }
}
