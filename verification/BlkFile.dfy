/** Blocks and transactions at their positions in the block files. */
module BlkFile {
  import opened Bits
  import opened Wrappers
  import IndexRecord
  import opened XorReader

  /** The bytes of each block file, by file number. */
  type BlkFiles = map<I32, seq<byte>>

  datatype ReadError =
    | BlockFileNotFound(file: I32)
    | OffsetUnderflow
    | Io(cause: IoError)
    | BadTransaction

  // ---------- what lies where in the unmasked file ----------

  /** A block lies at `offset`, after its size in four bytes. */
  function RawBlockAt(u: seq<byte>, offset: U32): Result<seq<byte>, ReadError> {
    if offset < 4 then Err(OffsetUnderflow)
    else if offset > |u| then Err(Io(UnexpectedEof))
    else
      var size := FromLittleEndian(u[offset - 4..offset]);
      if offset + size > |u| then Err(Io(UnexpectedEof)) else Ok(u[offset..offset + size])
  }

  function RawBlockIn(files: BlkFiles, mask: Option<Mask>, file: I32, offset: U32): Result<seq<byte>, ReadError> {
    if file !in files then Err(BlockFileNotFound(file)) else RawBlockAt(Unmasked(mask, files[file]), offset)
  }

  /** A block as the node writes it: something before, its size, the block, something after. */
  function Framed(before: seq<byte>, block: seq<byte>, rest: seq<byte>): seq<byte> {
    before + LittleEndian(|block|, 4) + block + rest
  }

  lemma FramedParts(before: seq<byte>, block: seq<byte>, rest: seq<byte>)
    ensures var u, offset := Framed(before, block, rest), |before| + 4;
      && offset + |block| <= |u|
      && u[offset - 4..offset] == LittleEndian(|block|, 4)
      && u[offset..offset + |block|] == block
  {
  }

  /** A block written into a masked file is read back whole, from the position of its first byte. */
  lemma WrittenBlockIsReadBack(files: BlkFiles, mask: Option<Mask>, file: I32,
                               before: seq<byte>, block: seq<byte>, rest: seq<byte>)
    requires file in files && files[file] == Unmasked(mask, Framed(before, block, rest))
    requires |block| < 0x1_0000_0000 && |before| + 4 < 0x1_0000_0000
    ensures RawBlockIn(files, mask, file, |before| + 4) == Ok(block)
  {
    hide Unmasked, Framed;
    UnmaskingUndoesMasking(mask, Framed(before, block, rest));
    FramedParts(before, block, rest);
    Pow256Of4();
    LittleEndianRoundTrip(|block|, 4);
  }

  // ---------- decoding from a stream ----------

  /** What a decoder makes of the bytes it has seen: it wants n + 1 more, or it is done. */
  datatype Demand<T> = More(n: nat) | Done(value: T) | Malformed

  type Decoder<!T> = seq<byte> -> Demand<T>

  /** The decoder at work on `s`, of which it has seen `seen` bytes. */
  function DecodeStream<T>(d: Decoder<T>, s: seq<byte>, seen: nat): Option<T>
    requires seen <= |s|
    decreases |s| - seen
  {
    match d(s[..seen])
    case Done(v) => Some(v)
    case Malformed => None
    case More(n) => if seen + n + 1 > |s| then None else DecodeStream(d, s, seen + n + 1)
  }

  /** What follows the transaction does not matter. */
  lemma {:induction false} DecodeIgnoresRest<T>(d: Decoder<T>, s: seq<byte>, rest: seq<byte>, seen: nat)
    requires seen <= |s| && DecodeStream(d, s, seen).Some?
    ensures DecodeStream(d, s + rest, seen) == DecodeStream(d, s, seen)
    decreases |s| - seen
  {
    assert (s + rest)[..seen] == s[..seen];
    if d(s[..seen]).More? {
      DecodeIgnoresRest(d, s, rest, seen + d(s[..seen]).n + 1);
    }
  }

  function From(u: seq<byte>, at: nat): seq<byte> {
    if at <= |u| then u[at..] else []
  }

  /** A transaction lies `txOffset` bytes after the header of the block at `dataPos`. */
  function TransactionIn<T>(files: BlkFiles, mask: Option<Mask>, file: I32, dataPos: U32, txOffset: U32, d: Decoder<T>)
    : Result<T, ReadError>
  {
    if file !in files then Err(BlockFileNotFound(file))
    else
      match DecodeStream(d, From(Unmasked(mask, files[file]), dataPos + txOffset + IndexRecord.HEADER_SIZE), 0)
      case Some(v) => Ok(v)
      case None => Err(BadTransaction)
  }

  /** A transaction read by its position is the one that the raw block holds at 80 + offset. */
  lemma TransactionLiesInRawBlock<T>(files: BlkFiles, mask: Option<Mask>, file: I32, dataPos: U32, txOffset: U32,
                                     d: Decoder<T>, raw: seq<byte>)
    requires RawBlockIn(files, mask, file, dataPos) == Ok(raw) && IndexRecord.HEADER_SIZE + txOffset <= |raw|
    requires DecodeStream(d, raw[IndexRecord.HEADER_SIZE + txOffset..], 0).Some?
    ensures TransactionIn(files, mask, file, dataPos, txOffset, d)
         == Ok(DecodeStream(d, raw[IndexRecord.HEADER_SIZE + txOffset..], 0).value)
  {
    hide Unmasked, DecodeStream;
    var u, start := Unmasked(mask, files[file]), IndexRecord.HEADER_SIZE + txOffset;
    var rest := u[dataPos + |raw|..];
    assert From(u, dataPos + start) == raw[start..] + rest;
    DecodeIgnoresRest(d, raw[start..], rest, 0);
  }

  // ---------- the readers ----------

  /** A chunk read in step is a stretch of the unmasked file. */
  lemma ChunkOfFile(mask: Option<Mask>, file: seq<byte>, s: State, n: nat)
    requires InStep(mask, s) && Available(file, s, n)
    ensures |Unmasked(mask, file)| == |file|
    ensures n > 0 ==>
      Chunk(mask, file, s.filePos, s.pos, n) == Unmasked(mask, file)[s.filePos..s.filePos + n]
    ensures n == 0 ==> Chunk(mask, file, s.filePos, s.pos, n) == []
  {
  }

  /** The next bytes, as the unmasked file has them. */
  method ReadStretch(r: XorReader, count: nat) returns (bytes: Result<seq<byte>, IoError>)
    requires r.Valid()
    modifies r, r.inner
    ensures r.Valid()
    ensures |Unmasked(r.mask, r.inner.data)| == |r.inner.data|
    ensures bytes.Ok? ==> count == 0 || old(r.inner.pos) + count <= |r.inner.data|
    ensures bytes.Err? && bytes.error.UnexpectedEof? ==> count > 0 && old(r.inner.pos) + count > |r.inner.data|
    ensures bytes.Err? && bytes.error.DeviceError? ==> !r.inner.reliable
    ensures bytes.Ok? ==> r.inner.pos == old(r.inner.pos) + count && |bytes.value| == count
    ensures bytes.Ok? && count > 0 ==>
      bytes.value == Unmasked(r.mask, r.inner.data)[old(r.inner.pos)..old(r.inner.pos) + count]
  {
    hide TrueTo, Chunk, Unmasked;
    SameLength(r.mask, r.inner.data);
    bytes := r.ReadExact(count);
    if bytes.Ok? {
      ChunkOfFile(r.mask, r.inner.data, old(r.Value()), count);
    }
  }

  method ReadU32(r: XorReader) returns (n: Result<U32, IoError>)
    requires r.Valid()
    modifies r, r.inner
    ensures r.Valid()
    ensures n.Err? && n.error.UnexpectedEof? ==> old(r.inner.pos) + 4 > |r.inner.data|
    ensures n.Err? && n.error.DeviceError? ==> !r.inner.reliable
    ensures n.Ok? ==> r.inner.pos == old(r.inner.pos) + 4 <= |Unmasked(r.mask, r.inner.data)|
    ensures n.Ok? ==>
      n.value == FromLittleEndian(Unmasked(r.mask, r.inner.data)[old(r.inner.pos)..r.inner.pos])
  {
    hide Unmasked, XorReader.Valid;
    var bytes := ReadStretch(r, 4);
    if bytes.Err? {
      return Err(bytes.error);
    }
    FromLittleEndianBound(bytes.value);
    Pow256Of4();
    n := Ok(FromLittleEndian(bytes.value));
  }

  /** Opens a file, which may fail on a device that is not reliable. */
  method Open(data: seq<byte>, reliable: bool, mask: Option<Mask>) returns (o: Option<XorReader>)
    ensures o.None? ==> !reliable
    ensures o.Some? ==> var r := o.value;
      && fresh(r) && fresh(r.inner) && r.Valid()
      && r.inner.data == data && r.inner.reliable == reliable && r.mask == mask
  {
    var f := new InnerFile(data, reliable);
    var failed := f.Fails();
    if failed {
      return None;
    }
    var r := new XorReader(f, mask);
    o := Some(r);
  }

  /** The unmasked bytes offset .. offset + size, however the reads divide them. */
  method ReadRawBlock(files: BlkFiles, reliable: bool, mask: Option<Mask>, file: I32, offset: U32)
    returns (res: Result<seq<byte>, ReadError>)
    ensures res == RawBlockIn(files, mask, file, offset) || (!reliable && res == Err(Io(DeviceError)))
  {
    if file !in files {
      return Err(BlockFileNotFound(file));
    }
    var o := Open(files[file], reliable, mask);
    if o.None? {
      return Err(Io(DeviceError));
    }
    var r := o.value;
    if offset < 4 {
      return Err(OffsetUnderflow);
    }
    var to := r.Seek(SeekFrom.Start(offset - 4));
    if to.None? {
      return Err(Io(DeviceError));
    }
    assert r.inner.pos == offset - 4;
    hide Unmasked, FromLittleEndian, XorReader.Valid;
    ghost var u := Unmasked(mask, files[file]);
    SameLength(mask, files[file]);
    var size := ReadU32(r);
    if size.Err? {
      assert size.error.UnexpectedEof? || size.error.DeviceError?;
      return Err(Io(size.error));
    }
    var block := ReadStretch(r, size.value);
    if block.Err? {
      assert block.error.UnexpectedEof? || block.error.DeviceError?;
      return Err(Io(block.error));
    }
    assert block.value == u[offset..offset + size.value];
    res := Ok(block.value);
  }

  lemma SameLength(mask: Option<Mask>, file: seq<byte>)
    ensures |Unmasked(mask, file)| == |file|
  {
  }

  method ReadTransaction<T>(files: BlkFiles, reliable: bool, mask: Option<Mask>, file: I32, dataPos: U32, txOffset: U32,
                            d: Decoder<T>)
    returns (res: Result<T, ReadError>)
    ensures res == TransactionIn(files, mask, file, dataPos, txOffset, d) || (!reliable && res == Err(Io(DeviceError)))
  {
    if file !in files {
      return Err(BlockFileNotFound(file));
    }
    var start := dataPos + txOffset + IndexRecord.HEADER_SIZE;
    var o := Open(files[file], reliable, mask);
    if o.None? {
      return Err(Io(DeviceError));
    }
    var r := o.value;
    var to := r.Seek(SeekFrom.Start(start));
    if to.None? {
      return Err(Io(DeviceError));
    }
    res := RunDecoder(r, d);
  }

  lemma StretchOfStream(u: seq<byte>, start: nat, a: nat, b: nat)
    requires a <= b && start + b <= |u|
    ensures |From(u, start)| == |u| - start
    ensures From(u, start)[a..b] == u[start + a..start + b]
    ensures From(u, start)[..a] + u[start + a..start + b] == From(u, start)[..b]
  {
  }

  /** The decoder asks for bytes until it has its transaction. */
  method RunDecoder<T>(r: XorReader, d: Decoder<T>) returns (res: Result<T, ReadError>)
    requires r.Valid()
    modifies r, r.inner
    ensures var v := DecodeStream(d, From(Unmasked(r.mask, r.inner.data), old(r.inner.pos)), 0);
      res == (if v.Some? then Ok(v.value) else Err(BadTransaction)) || (!r.inner.reliable && res == Err(Io(DeviceError)))
  {
    ghost var stream, start := From(Unmasked(r.mask, r.inner.data), r.inner.pos), r.inner.pos;
    SameLength(r.mask, r.inner.data);
    hide Unmasked, XorReader.Valid;
    var seen: seq<byte> := [];
    while true
      invariant r.Valid() && r.inner.pos == start + |seen|
      invariant |seen| <= |stream| && seen == stream[..|seen|]
      invariant DecodeStream(d, stream, |seen|) == DecodeStream(d, stream, 0)
      decreases |stream| - |seen|
    {
      match d(seen)
      case Done(v) => return Ok(v);
      case Malformed => return Err(BadTransaction);
      case More(n) =>
        var bytes := ReadStretch(r, n + 1);
        if bytes.Err? {
          return if bytes.error.DeviceError? then Err(Io(DeviceError)) else Err(BadTransaction);
        }
        StretchOfStream(Unmasked(r.mask, r.inner.data), start, |seen|, |seen| + n + 1);
        assert seen + bytes.value == stream[..|seen| + n + 1];
        seen := seen + bytes.value;
    }
  }
}
