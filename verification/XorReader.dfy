/**
 The reader that takes the XOR mask off block files.

 `State` is the reader over a file, with a record of what it delivered since the last seek and
 from where in the file; `Step` says what each operation does to it. The class performs the
 operations on a file whose reads return as many bytes as they like.
 */
module XorReader {
  import opened Bits
  import opened Wrappers

  type Mask = m: seq<byte> | |m| == 8 witness seq(8, _ => 0)

  const BUFFER_SIZE: nat := 4096

  // ---------- the unmasked file ----------

  function XorByte(a: byte, m: byte): byte {
    assert Pow2(8) == 0x100;
    XorBound(a, m, 8);
    Xor(a, m)
  }

  /** The byte at file position `at`, when the file has `b` there. */
  function UnmaskAt(mask: Option<Mask>, b: byte, at: nat): byte {
    match mask
    case None => b
    case Some(m) => XorByte(b, m[at % 8])
  }

  /** `bytes`, which lie at file position `at` and after. */
  function Unmask(mask: Option<Mask>, bytes: seq<byte>, at: nat): (r: seq<byte>)
    ensures |r| == |bytes|
    ensures forall k :: 0 <= k < |bytes| ==> r[k] == UnmaskAt(mask, bytes[k], at + k)
  {
    seq(|bytes|, k requires 0 <= k < |bytes| => UnmaskAt(mask, bytes[k], at + k))
  }

  function Unmasked(mask: Option<Mask>, file: seq<byte>): seq<byte> {
    Unmask(mask, file, 0)
  }

  /** Masking a masked file gives the file back. */
  lemma UnmaskingUndoesMasking(mask: Option<Mask>, file: seq<byte>)
    ensures Unmasked(mask, Unmasked(mask, file)) == file
  {
    forall k | 0 <= k < |file| ensures Unmasked(mask, Unmasked(mask, file))[k] == file[k] {
      if mask.Some? {
        XorTwice(file[k], mask.value[k % 8]);
      }
    }
  }

  // ---------- operations on values ----------

  datatype Delivery = Delivery(at: nat, b: byte)

  /** `origin` is the file position of the first buffered byte, `start` where the last seek led. */
  datatype State = State(filePos: nat, pos: nat, buffer: seq<byte>, origin: nat, start: nat, delivered: seq<Delivery>)

  datatype Event =
    | Read(size: nat)
    | FillBuf(size: nat)
    | Consume(amount: nat)
    | Seek(target: nat)
    | FailedSeek

  function Opened(): State {
    State(0, 0, [], 0, 0, [])
  }

  /** The inner file can hand out its next n bytes. */
  predicate Available(file: seq<byte>, s: State, n: nat) {
    n > 0 ==> s.filePos + n <= |file|
  }

  predicate Enabled(file: seq<byte>, s: State, e: Event) {
    match e
    case Read(n) => Available(file, s, n)
    case FillBuf(n) => n <= BUFFER_SIZE && Available(file, s, n) && (s.buffer != [] ==> n == 0)
    case Consume(n) => n <= |s.buffer|
    case _ => true
  }

  /** `n` bytes of the file from `from` on, each unmasked for position `pos` onwards. */
  function Chunk(mask: Option<Mask>, file: seq<byte>, from: nat, pos: nat, n: nat): (r: seq<byte>)
    requires n > 0 ==> from + n <= |file|
    ensures |r| == n
  {
    if n == 0 then [] else Unmask(mask, file[from..from + n], pos)
  }

  function Deliver(bytes: seq<byte>, from: nat): (r: seq<Delivery>)
    ensures |r| == |bytes|
    ensures forall i :: 0 <= i < |bytes| ==> r[i] == Delivery(from + i, bytes[i])
  {
    seq(|bytes|, i requires 0 <= i < |bytes| => Delivery(from + i, bytes[i]))
  }

  /** The position field moves only when there is a mask. */
  function Advance(mask: Option<Mask>, pos: nat, n: nat): nat {
    if mask.Some? then pos + n else pos
  }

  function AfterRead(mask: Option<Mask>, s: State, bytes: seq<byte>): State {
    s.(filePos := s.filePos + |bytes|, pos := Advance(mask, s.pos, |bytes|),
       delivered := s.delivered + Deliver(bytes, s.filePos))
  }

  function Step(mask: Option<Mask>, file: seq<byte>, s: State, e: Event): State
    requires Enabled(file, s, e)
  {
    match e
    case Read(n) => AfterRead(mask, s, Chunk(mask, file, s.filePos, s.pos, n))
    case FillBuf(n) =>
      if s.buffer != [] || n == 0 then s
      else s.(filePos := s.filePos + n, pos := Advance(mask, s.pos, n),
              buffer := Chunk(mask, file, s.filePos, s.pos, n), origin := s.filePos)
    case Consume(n) =>
      s.(buffer := s.buffer[n..], origin := s.origin + n,
         delivered := s.delivered + Deliver(s.buffer[..n], s.origin))
    case Seek(p) => s.(filePos := p, pos := p, start := p, delivered := [])
    case FailedSeek => s.(pos := s.filePos)
  }

  function Run(mask: Option<Mask>, file: seq<byte>, es: seq<Event>): Option<State> {
    if es == [] then Some(Opened())
    else
      var s :- Run(mask, file, es[..|es| - 1]);
      if Enabled(file, s, es[|es| - 1]) then Some(Step(mask, file, s, es[|es| - 1])) else None
  }

  // ---------- in every run: the right byte for its position ----------

  /** With a mask, the position field is the stream position of the file. */
  predicate InStep(mask: Option<Mask>, s: State) {
    mask.Some? ==> s.pos == s.filePos
  }

  /** Each byte is the one the unmasked file has at its position. */
  predicate TrueTo(u: seq<byte>, ds: seq<Delivery>) {
    forall i :: 0 <= i < |ds| ==> ds[i].at < |u| && ds[i].b == u[ds[i].at]
  }

  /** The position is kept, and what was delivered or is buffered is true to the file. */
  predicate Sound(mask: Option<Mask>, file: seq<byte>, s: State) {
    && InStep(mask, s)
    && TrueTo(Unmasked(mask, file), s.delivered)
    && TrueTo(Unmasked(mask, file), Deliver(s.buffer, s.origin))
  }

  lemma TrueToBoth(u: seq<byte>, a: seq<Delivery>, b: seq<Delivery>)
    requires TrueTo(u, a) && TrueTo(u, b)
    ensures TrueTo(u, a + b)
  {
  }

  lemma TrueToParts(u: seq<byte>, bytes: seq<byte>, from: nat, n: nat)
    requires TrueTo(u, Deliver(bytes, from)) && n <= |bytes|
    ensures TrueTo(u, Deliver(bytes[..n], from)) && TrueTo(u, Deliver(bytes[n..], from + n))
  {
    var ds := Deliver(bytes, from);
    assert Deliver(bytes[..n], from) == ds[..n];
    assert Deliver(bytes[n..], from + n) == ds[n..];
    hide Deliver;
  }

  lemma ChunkIsTrue(mask: Option<Mask>, file: seq<byte>, s: State, n: nat)
    requires InStep(mask, s) && Available(file, s, n)
    ensures TrueTo(Unmasked(mask, file), Deliver(Chunk(mask, file, s.filePos, s.pos, n), s.filePos))
  {
  }

  lemma StepIsSound(mask: Option<Mask>, file: seq<byte>, s: State, e: Event)
    requires Sound(mask, file, s) && Enabled(file, s, e)
    ensures Sound(mask, file, Step(mask, file, s, e))
  {
    var u := Unmasked(mask, file);
    hide Unmasked, Chunk, Deliver, TrueTo;
    match e
    case Read(n) =>
      ChunkIsTrue(mask, file, s, n);
      TrueToBoth(u, s.delivered, Deliver(Chunk(mask, file, s.filePos, s.pos, n), s.filePos));
    case FillBuf(n) =>
      ChunkIsTrue(mask, file, s, n);
    case Consume(n) =>
      TrueToParts(u, s.buffer, s.origin, n);
      TrueToBoth(u, s.delivered, Deliver(s.buffer[..n], s.origin));
    case Seek(_) =>
      NothingIsTrue(u);
    case FailedSeek =>
  }

  lemma NothingIsTrue(u: seq<byte>)
    ensures TrueTo(u, [])
  {
  }

  /** In every run, whatever the order of operations and the sizes of the reads, the position is
      kept and each byte handed out from file position k is file[k] xor mask[k mod 8]. */
  lemma {:induction false} RunIsSound(mask: Option<Mask>, file: seq<byte>, es: seq<Event>)
    requires Run(mask, file, es).Some?
    ensures Sound(mask, file, Run(mask, file, es).value)
  {
    if es == [] {
    } else {
      RunIsSound(mask, file, es[..|es| - 1]);
      StepIsSound(mask, file, Run(mask, file, es[..|es| - 1]).value, es[|es| - 1]);
    }
  }

  // ---------- no gap and no repetition ----------

  /** What was delivered, what is buffered and the rest of the file follow on each other. */
  ghost predicate Seamless(s: State) {
    && (forall i :: 0 <= i < |s.delivered| ==> s.delivered[i].at == s.start + i)
    && (s.buffer != [] ==> s.origin == s.start + |s.delivered|)
    && s.filePos == s.start + |s.delivered| + |s.buffer|
  }

  /** `read` and `seek` pass the buffer by, so it should be empty. */
  predicate Orderly(s: State, e: Event) {
    match e
    case Read(n) => n == 0 || s.buffer == []
    case Seek(_) => s.buffer == []
    case _ => true
  }

  /** From a seamless state, exactly the orderly operations lead to a seamless state. */
  lemma SeamlessIffOrderly(mask: Option<Mask>, file: seq<byte>, s: State, e: Event)
    requires Seamless(s) && Enabled(file, s, e)
    ensures Seamless(Step(mask, file, s, e)) <==> Orderly(s, e)
  {
    hide UnmaskAt;
    var t := Step(mask, file, s, e);
    if e.Read? && e.size > 0 && s.buffer != [] {
      assert t.delivered[|s.delivered|].at == s.filePos;
    }
  }

  /** A read behind a filled buffer skips what is buffered. */
  lemma ReadBehindBufferSkips(a: byte, b: byte)
    ensures var r := Run(None, [a, b], [FillBuf(1), Read(1)]);
      r.Some? && r.value.start == 0 && r.value.delivered == [Delivery(1, b)] && !Seamless(r.value)
  {
    var es := [FillBuf(1), Read(1)];
    assert es[..1] == [FillBuf(1)] && es[..1][..0] == [];
    var s := Step(None, [a, b], Opened(), FillBuf(1));
    assert s == Opened().(filePos := 1, buffer := [a]);
    assert Run(None, [a, b], es[..1]) == Some(s);
    assert Chunk(None, [a, b], 1, 0, 1) == [b];
    assert [] + Deliver([b], 1) == [Delivery(1, b)];
  }

  lemma RunStep(mask: Option<Mask>, file: seq<byte>, es: seq<Event>, e: Event)
    requires Run(mask, file, es).Some? && Enabled(file, Run(mask, file, es).value, e)
    ensures Run(mask, file, es + [e]) == Some(Step(mask, file, Run(mask, file, es).value, e))
  {
    assert (es + [e])[..|es|] == es;
    hide Step, Enabled;
  }

  /** A seek behind a filled buffer repeats what is buffered. */
  lemma SeekBehindBufferRepeats(a: byte, b: byte)
    ensures var r := Run(None, [a, b], [] + [FillBuf(1)] + [Seek(0)] + [Consume(1)] + [Read(1)]);
      r.Some? && r.value.start == 0 && r.value.delivered == [Delivery(0, a), Delivery(0, a)]
  {
    var file: seq<byte> := [a, b];
    var filled := State(1, 0, [a], 0, 0, []);
    var sought := State(0, 0, [a], 0, 0, []);
    var consumed := State(0, 0, [], 1, 0, [Delivery(0, a)]);
    var again := State(1, 0, [], 1, 0, [Delivery(0, a), Delivery(0, a)]);
    FirstByte(a, b);
    assert Step(None, file, Opened(), FillBuf(1)) == filled && Enabled(file, Opened(), FillBuf(1));
    assert Step(None, file, filled, Seek(0)) == sought && Enabled(file, filled, Seek(0));
    assert Step(None, file, sought, Consume(1)) == consumed && Enabled(file, sought, Consume(1)) by {
      assert [a][..1] == [a] && [a][1..] == [];
    }
    assert Step(None, file, consumed, Read(1)) == again && Enabled(file, consumed, Read(1)) by {
      assert [Delivery(0, a)] + [Delivery(0, a)] == [Delivery(0, a), Delivery(0, a)];
    }
    assert Run(None, file, []) == Some(Opened());
    hide *;
    RunStep(None, file, [], FillBuf(1));
    RunStep(None, file, [] + [FillBuf(1)], Seek(0));
    RunStep(None, file, [] + [FillBuf(1)] + [Seek(0)], Consume(1));
    RunStep(None, file, [] + [FillBuf(1)] + [Seek(0)] + [Consume(1)], Read(1));
  }

  lemma FirstByte(a: byte, b: byte)
    ensures Chunk(None, [a, b], 0, 0, 1) == [a] && Deliver([a], 0) == [Delivery(0, a)]
  {
    assert [a, b][0..1] == [a];
    WithoutMask([a], 0);
    hide Unmask;
  }

  /** A run stays seamless all along if and only if it is orderly all along. */
  lemma {:induction false} RunSeamlessIffOrderly(mask: Option<Mask>, file: seq<byte>, es: seq<Event>)
    requires Run(mask, file, es).Some?
    ensures SeamlessThroughout(mask, file, es) <==> OrderlyThroughout(mask, file, es)
    ensures SeamlessThroughout(mask, file, es) ==> Seamless(Run(mask, file, es).value)
  {
    if es == [] {
    } else {
      RunSeamlessIffOrderly(mask, file, es[..|es| - 1]);
      var s := Run(mask, file, es[..|es| - 1]).value;
      if Seamless(s) {
        SeamlessIffOrderly(mask, file, s, es[|es| - 1]);
      }
    }
  }

  ghost predicate SeamlessThroughout(mask: Option<Mask>, file: seq<byte>, es: seq<Event>)
    requires Run(mask, file, es).Some?
  {
    Seamless(Run(mask, file, es).value) && (es != [] ==> SeamlessThroughout(mask, file, es[..|es| - 1]))
  }

  predicate OrderlyThroughout(mask: Option<Mask>, file: seq<byte>, es: seq<Event>)
    requires Run(mask, file, es).Some?
  {
    es != [] ==>
      OrderlyThroughout(mask, file, es[..|es| - 1]) && Orderly(Run(mask, file, es[..|es| - 1]).value, es[|es| - 1])
  }

  function Bytes(ds: seq<Delivery>): (r: seq<byte>)
    ensures |r| == |ds|
    ensures forall i :: 0 <= i < |ds| ==> r[i] == ds[i].b
  {
    seq(|ds|, i requires 0 <= i < |ds| => ds[i].b)
  }

  lemma SeamlessDeliversFile(mask: Option<Mask>, file: seq<byte>, s: State)
    requires TrueTo(Unmasked(mask, file), s.delivered) && Seamless(s) && s.delivered != []
    ensures s.start + |s.delivered| <= |file|
    ensures |Unmasked(mask, file)| == |file|
    ensures Bytes(s.delivered) == Unmasked(mask, file)[s.start..s.start + |s.delivered|]
  {
    var u, n := Unmasked(mask, file), |s.delivered|;
    hide UnmaskAt, Unmask;
    assert |u| == |file|;
    hide Unmasked;
    assert s.delivered[n - 1].at == s.start + n - 1;
    forall i | 0 <= i < n ensures Bytes(s.delivered)[i] == u[s.start..s.start + n][i] {
      assert s.delivered[i].at == s.start + i;
    }
  }

  /** An orderly run has delivered the unmasked file from the last seek on. */
  lemma OrderlyRunDeliversFile(mask: Option<Mask>, file: seq<byte>, es: seq<Event>)
    requires Run(mask, file, es).Some? && OrderlyThroughout(mask, file, es)
    ensures |Unmasked(mask, file)| == |file|
    ensures var s := Run(mask, file, es).value;
      s.delivered != [] ==>
        s.start + |s.delivered| <= |file|
        && Bytes(s.delivered) == Unmasked(mask, file)[s.start..s.start + |s.delivered|]
  {
    RunSeamlessIffOrderly(mask, file, es);
    RunIsSound(mask, file, es);
    var s := Run(mask, file, es).value;
    hide Run, SeamlessThroughout, OrderlyThroughout, Seamless, TrueTo, Unmask, UnmaskAt;
    if s.delivered != [] {
      SeamlessDeliversFile(mask, file, s);
    }
  }

  lemma ChunksCompose(mask: Option<Mask>, file: seq<byte>, from: nat, pos: nat, a: nat, b: nat)
    requires (a > 0 ==> from + a <= |file|) && (b > 0 ==> from + a + b <= |file|)
    ensures Chunk(mask, file, from, pos, a + b)
         == Chunk(mask, file, from, pos, a) + Chunk(mask, file, from + a, Advance(mask, pos, a), b)
  {
    if a > 0 && b > 0 {
      assert file[from..from + (a + b)] == file[from..from + a] + file[from + a..from + a + b];
      UnmasksCompose(mask, file[from..from + a], file[from + a..from + a + b], pos);
      hide Unmask;
    }
  }

  lemma UnmasksCompose(mask: Option<Mask>, a: seq<byte>, b: seq<byte>, at: nat)
    ensures Unmask(mask, a + b, at) == Unmask(mask, a, at) + Unmask(mask, b, Advance(mask, at, |a|))
  {
  }

  lemma AfterReadsCompose(mask: Option<Mask>, s: State, a: seq<byte>, b: seq<byte>)
    ensures AfterRead(mask, AfterRead(mask, s, a), b) == AfterRead(mask, s, a + b)
  {
    var from := s.filePos;
    assert Deliver(a + b, from) == Deliver(a, from) + Deliver(b, from + |a|);
    ConcatIsAssociative(s.delivered, Deliver(a, from), Deliver(b, from + |a|));
    hide Deliver;
  }

  lemma ConcatIsAssociative<T>(a: seq<T>, b: seq<T>, c: seq<T>)
    ensures a + b + c == a + (b + c)
  {
  }

  /** One read after another is one read of both: the sizes do not matter. */
  lemma ReadsCompose(mask: Option<Mask>, file: seq<byte>, s: State, a: nat, b: nat)
    requires Enabled(file, s, Read(a)) && Enabled(file, Step(mask, file, s, Read(a)), Read(b))
    ensures Enabled(file, s, Read(a + b))
    ensures Step(mask, file, Step(mask, file, s, Read(a)), Read(b)) == Step(mask, file, s, Read(a + b))
  {
    hide Step, Chunk, Deliver, Unmask;
    var from, pos := s.filePos, s.pos;
    ReadStep(mask, file, s, a);
    ChunksCompose(mask, file, from, pos, a, b);
    AfterReadsCompose(mask, s, Chunk(mask, file, from, pos, a),
                      Chunk(mask, file, from + a, Advance(mask, pos, a), b));
    ReadStep(mask, file, s, a + b);
    ReadStep(mask, file, Step(mask, file, s, Read(a)), b);
  }

  lemma ReadStep(mask: Option<Mask>, file: seq<byte>, s: State, n: nat)
    requires Enabled(file, s, Read(n))
    ensures Step(mask, file, s, Read(n)) == AfterRead(mask, s, Chunk(mask, file, s.filePos, s.pos, n))
  {
  }

  /** Bytes read so far and more bytes read after them are what one read of both gives. */
  lemma ReadMore(mask: Option<Mask>, file: seq<byte>, s: State, a: nat, b: nat)
    requires Available(file, s, a) && Available(file, Step(mask, file, s, Read(a)), b)
    ensures Available(file, s, a + b)
    ensures Step(mask, file, Step(mask, file, s, Read(a)), Read(b)) == Step(mask, file, s, Read(a + b))
    ensures var t := Step(mask, file, s, Read(a));
      Chunk(mask, file, s.filePos, s.pos, a + b)
      == Chunk(mask, file, s.filePos, s.pos, a) + Chunk(mask, file, t.filePos, t.pos, b)
  {
    hide Step, Chunk, Deliver;
    ReadStep(mask, file, s, a);
    ReadsCompose(mask, file, s, a, b);
    ChunksCompose(mask, file, s.filePos, s.pos, a, b);
  }

  lemma WithoutMask(bytes: seq<byte>, at: nat)
    ensures Unmask(None, bytes, at) == bytes
  {
  }

  // ---------- the reader itself ----------

  datatype IoError = UnexpectedEof | DeviceError

  /** A file that may hand out fewer bytes than asked for; any operation on one that is not
      reliable may fail. */
  class InnerFile {
    const data: seq<byte>
    const reliable: bool
    var pos: nat

    constructor (data: seq<byte>, reliable: bool)
      ensures this.data == data && this.reliable == reliable && pos == 0
    {
      this.data := data;
      this.reliable := reliable;
      pos := 0;
    }

    method Fails() returns (failed: bool)
      ensures failed ==> !reliable
    {
      var choice: bool := *;
      failed := !reliable && choice;
    }

    /** `None` is a failed read, which moves nothing. */
    method Read(buf: array<byte>) returns (n: Option<nat>)
      modifies this, buf
      ensures n.None? ==> !reliable && pos == old(pos) && buf[..] == old(buf[..])
      ensures n.Some? ==> n.value <= buf.Length && pos == old(pos) + n.value
      ensures n.Some? ==> (n.value == 0 <==> buf.Length == 0 || old(pos) >= |data|)
      ensures n.Some? && n.value > 0 ==> pos <= |data| && buf[..n.value] == data[old(pos)..pos]
      ensures n.Some? ==> buf[n.value..] == old(buf[n.value..])
    {
      var failed := Fails();
      if failed {
        return None;
      }
      if buf.Length == 0 || pos >= |data| {
        return Some(0);
      }
      var k :| 1 <= k <= buf.Length && k <= |data| - pos;
      forall i | 0 <= i < k {
        buf[i] := data[pos + i];
      }
      pos := pos + k;
      n := Some(k);
    }
  }

  datatype SeekFrom = Start(n: nat) | Current(delta: int) | End(delta: int)

  class XorReader {
    const inner: InnerFile
    const mask: Option<Mask>
    var pos: nat
    var buffer: seq<byte>
    ghost var origin: nat
    ghost var start: nat
    ghost var delivered: seq<Delivery>

    ghost function Value(): State
      reads this, inner
    {
      State(inner.pos, pos, buffer, origin, start, delivered)
    }

    ghost predicate Valid()
      reads this, inner
    {
      Sound(mask, inner.data, Value())
    }

    /** A reader over a file that stands at its beginning is in step with it; over any other
        file a masked reader is not. */
    constructor (inner: InnerFile, mask: Option<Mask>)
      ensures this.inner == inner && this.mask == mask
      ensures Value() == Opened().(filePos := inner.pos)
      ensures Valid() <==> mask.None? || inner.pos == 0
    {
      this.inner := inner;
      this.mask := mask;
      pos, buffer := 0, [];
      origin, start, delivered := 0, 0, [];
    }

    /** Unmasks the first n bytes of `buf` in place. */
    method XorInPlace(buf: array<byte>, n: nat)
      requires mask.Some? && n <= buf.Length
      modifies this`pos, buf
      ensures pos == old(pos) + n
      ensures buf[..n] == Unmask(mask, old(buf[..n]), old(pos)) && buf[n..] == old(buf[n..])
    {
      var i := 0;
      while i < n
        invariant 0 <= i <= n && pos == old(pos) + i
        invariant forall k :: 0 <= k < i ==> buf[k] == UnmaskAt(mask, old(buf[k]), old(pos) + k)
        invariant forall k :: i <= k < buf.Length ==> buf[k] == old(buf[k])
      {
        buf[i] := XorByte(buf[i], mask.value[pos % 8]);
        pos := pos + 1;
        i := i + 1;
      }
    }

    /** Reads the next bytes of the file and takes the mask off them. */
    method ReadUnmasked(buf: array<byte>) returns (r: Option<nat>)
      modifies this`pos, inner, buf
      ensures r.None? ==> !inner.reliable && inner.pos == old(inner.pos) && pos == old(pos) && buf[..] == old(buf[..])
      ensures r.Some? ==> var size := r.value;
        && size <= buf.Length && (size == 0 <==> buf.Length == 0 || old(inner.pos) >= |inner.data|)
        && inner.pos == old(inner.pos) + size && pos == Advance(mask, old(pos), size)
        && (size > 0 ==> inner.pos <= |inner.data|)
        && buf[..size] == Chunk(mask, inner.data, old(inner.pos), old(pos), size)
        && buf[size..] == old(buf[size..])
    {
      hide Unmask;
      r := inner.Read(buf);
      if r.None? {
        return;
      }
      if mask.Some? {
        XorInPlace(buf, r.value);
      } else {
        WithoutMask(buf[..r.value], pos);
      }
    }

    /** Reads past the buffer, straight from the file. A failed read changes nothing. */
    method Read(buf: array<byte>) returns (r: Option<nat>)
      requires Valid()
      modifies this, inner, buf
      ensures Valid()
      ensures r.None? ==> !inner.reliable && Value() == old(Value()) && buf[..] == old(buf[..])
      ensures r.Some? ==> var size := r.value;
        && size <= buf.Length && (size == 0 <==> buf.Length == 0 || old(inner.pos) >= |inner.data|)
        && Available(inner.data, old(Value()), size)
        && Value() == Step(mask, inner.data, old(Value()), Event.Read(size))
        && buf[..size] == Chunk(mask, inner.data, old(inner.pos), old(pos), size)
        && buf[size..] == old(buf[size..])
    {
      r := ReadUnmasked(buf);
      if r.None? {
        return;
      }
      var size := r.value;
      delivered := delivered + Deliver(buf[..size], old(inner.pos));
      StepIsSound(mask, inner.data, old(Value()), Event.Read(size));
      ReadStep(mask, inner.data, old(Value()), size);
      hide Step, Chunk, Deliver, Sound;
    }

    /** The buffered bytes, after reading some more if there were none. Nothing comes back only
        at the end of the file, and a failed read changes nothing. */
    method FillBuf() returns (bytes: Option<seq<byte>>)
      requires Valid()
      modifies this, inner
      ensures Valid()
      ensures bytes.None? ==> !inner.reliable && Value() == old(Value())
      ensures bytes.Some? ==> bytes.value == buffer
      ensures bytes == Some([]) ==> old(inner.pos) >= |inner.data|
      ensures bytes.Some? ==> var e := Event.FillBuf(if old(buffer) == [] then |buffer| else 0);
        Enabled(inner.data, old(Value()), e) && Value() == Step(mask, inner.data, old(Value()), e)
    {
      if buffer == [] {
        var temp := new byte[BUFFER_SIZE];
        var n := ReadUnmasked(temp);
        if n.None? {
          return None;
        }
        StepIsSound(mask, inner.data, old(Value()), Event.FillBuf(n.value));
        hide Chunk, Sound;
        if n.value == 0 {
          return Some([]);
        }
        buffer, origin := temp[..n.value], old(inner.pos);
      }
      bytes := Some(buffer);
    }

    /** Drops bytes from the front of the buffer; taking more than it holds is a panic. */
    method Consume(amount: nat)
      requires Valid() && amount <= |buffer|
      modifies this
      ensures Valid() && Value() == Step(mask, inner.data, old(Value()), Event.Consume(amount))
    {
      StepIsSound(mask, inner.data, Value(), Event.Consume(amount));
      delivered := delivered + Deliver(buffer[..amount], origin);
      buffer, origin := buffer[amount..], origin + amount;
      hide Sound, Deliver;
    }

    function Target(from: SeekFrom): int
      reads inner
    {
      match from
      case Start(n) => n
      case Current(delta) => inner.pos + delta
      case End(delta) => |inner.data| + delta
    }

    /** Moves the file, then takes its position over; the buffer stays as it is. */
    method Seek(from: SeekFrom) returns (r: Option<nat>)
      requires Valid()
      modifies this, inner
      ensures Valid()
      ensures r.Some? ==> r.value == old(Target(from))
      ensures r.None? ==> old(Target(from)) < 0 || !inner.reliable
      ensures Value() == Step(mask, inner.data, old(Value()), if r.Some? then Event.Seek(r.value) else FailedSeek)
    {
      var target := Target(from);
      var failed := inner.Fails();
      r := None;
      if target >= 0 && !failed {
        inner.pos := target;
        start, delivered := target, [];
        r := Some(target);
      }
      pos := inner.pos;
      StepIsSound(mask, inner.data, old(Value()), if r.Some? then Event.Seek(r.value) else FailedSeek);
      hide Sound;
    }

    /** Reads until `count` bytes are there: they do not depend on how the reads divide them. */
    method ReadExact(count: nat) returns (r: Result<seq<byte>, IoError>)
      requires Valid()
      modifies this, inner
      ensures Valid()
      ensures r.Ok? ==> Available(inner.data, old(Value()), count)
      ensures r.Err? && r.error.UnexpectedEof? ==> !Available(inner.data, old(Value()), count)
      ensures r.Err? && r.error.DeviceError? ==> !inner.reliable
      ensures r.Ok? ==> r.value == Chunk(mask, inner.data, old(inner.pos), old(pos), count)
      ensures r.Ok? ==> Value() == Step(mask, inner.data, old(Value()), Event.Read(count))
    {
      var got: seq<byte> := [];
      ReadNothing(mask, inner.data, Value());
      while |got| < count
        invariant Valid() && |got| <= count && Available(inner.data, old(Value()), |got|)
        invariant Value() == Step(mask, inner.data, old(Value()), Event.Read(|got|))
        invariant got == Chunk(mask, inner.data, old(inner.pos), old(pos), |got|)
        decreases count - |got|
      {
        var rest := new byte[count - |got|];
        hide Chunk, Sound, Step, Deliver;
        ReadStep(mask, inner.data, old(Value()), |got|);
        var n := Read(rest);
        if n.None? {
          return Err(DeviceError);
        }
        if n.value == 0 {
          return Err(UnexpectedEof);
        }
        ReadMore(mask, inner.data, old(Value()), |got|, n.value);
        got := got + rest[..n.value];
      }
      r := Ok(got);
    }
  }

  lemma ReadNothing(mask: Option<Mask>, file: seq<byte>, s: State)
    ensures Step(mask, file, s, Read(0)) == s
  {
    assert s.delivered + Deliver([], s.filePos) == s.delivered;
  }
}
