/**
 The offset base-128 integers of Bitcoin Core's index databases, as `read_varint` reads them.

 `Value` and `Encode` are the code over unbounded integers; `MachineValue` is the source's
 shift/or/increment loop on a 64-bit word; `Cursor.ReadVarint` is that loop on a byte cursor.
 */
module Varint {
  import opened Bits
  import opened Wrappers

  // ---------- the code over unbounded integers ----------

  /** A complete code: every byte but the last has its top bit set. */
  predicate Terminated(code: seq<byte>) {
    && |code| > 0
    && (forall i :: 0 <= i < |code| - 1 ==> code[i] >= 0x80)
    && code[|code| - 1] < 0x80
  }

  /** What the continuation bytes contribute, each of them adding one after its seven bits. */
  function Carry(bytes: seq<byte>): nat {
    if bytes == [] then 0
    else Carry(bytes[..|bytes| - 1]) * 0x80 + bytes[|bytes| - 1] % 0x80 + 1
  }

  function Value(code: seq<byte>): nat
    requires |code| > 0
  {
    Carry(code[..|code| - 1]) * 0x80 + code[|code| - 1] % 0x80
  }

  function EncodeCarry(m: nat): seq<byte> {
    if m < 0x80 then [m + 0x80] else EncodeCarry(m / 0x80 - 1) + [m % 0x80 + 0x80]
  }

  function Encode(n: nat): seq<byte> {
    if n < 0x80 then [n] else EncodeCarry(n / 0x80 - 1) + [n % 0x80]
  }

  /** The least number whose code has `k` bytes: 0, 128, 128 + 128^2, ... */
  function Least(k: nat): nat {
    if k <= 1 then 0 else 0x80 * (Least(k - 1) + 1)
  }

  lemma {:induction false} EncodeCarryIsContinuation(m: nat)
    ensures |EncodeCarry(m)| > 0
    ensures forall i :: 0 <= i < |EncodeCarry(m)| ==> EncodeCarry(m)[i] >= 0x80
    ensures Carry(EncodeCarry(m)) == m + 1
  {
    if m < 0x80 {
      assert Carry([m + 0x80]) == Carry([]) * 0x80 + m + 1;
    } else {
      var rest := EncodeCarry(m / 0x80 - 1);
      EncodeCarryIsContinuation(m / 0x80 - 1);
      assert EncodeCarry(m)[..|rest|] == rest;
    }
  }

  lemma EncodeThenValue(n: nat)
    ensures Terminated(Encode(n))
    ensures Value(Encode(n)) == n
  {
    if n >= 0x80 {
      var rest := EncodeCarry(n / 0x80 - 1);
      EncodeCarryIsContinuation(n / 0x80 - 1);
      assert Encode(n)[..|rest|] == rest;
    }
  }

  lemma {:induction false} CarryThenEncodeCarry(bytes: seq<byte>)
    requires |bytes| > 0
    requires forall i :: 0 <= i < |bytes| ==> bytes[i] >= 0x80
    ensures Carry(bytes) > 0
    ensures EncodeCarry(Carry(bytes) - 1) == bytes
  {
    var rest, last := bytes[..|bytes| - 1], bytes[|bytes| - 1];
    if rest == [] {
      assert bytes == [last];
    } else {
      CarryThenEncodeCarry(rest);
      QuotientAndRemainder(Carry(rest), last - 0x80);
      assert bytes == rest + [last];
    }
  }

  /** The other half of the bijection: a complete code is the code of its value. */
  lemma ValueThenEncode(code: seq<byte>)
    requires Terminated(code)
    ensures Encode(Value(code)) == code
  {
    var rest, last := code[..|code| - 1], code[|code| - 1];
    assert code == rest + [last];
    QuotientAndRemainder(Carry(rest), last);
    if rest != [] {
      CarryThenEncodeCarry(rest);
    }
  }

  lemma QuotientAndRemainder(high: nat, low: nat)
    requires low < 0x80
    ensures (high * 0x80 + low) / 0x80 == high && (high * 0x80 + low) % 0x80 == low
  {
  }

  lemma DistinctCodesDistinctValues(a: seq<byte>, b: seq<byte>)
    requires Terminated(a) && Terminated(b)
    ensures Value(a) == Value(b) <==> a == b
  {
    ValueThenEncode(a);
    ValueThenEncode(b);
  }

  lemma {:induction false} CarryInterval(bytes: seq<byte>)
    ensures Least(|bytes| + 1) <= Carry(bytes) * 0x80
    ensures Carry(bytes) * 0x80 + 0x7F < Least(|bytes| + 2)
  {
    if bytes == [] {
    } else {
      CarryInterval(bytes[..|bytes| - 1]);
    }
  }

  lemma {:induction false} LeastGrows(j: nat, k: nat)
    requires j <= k
    ensures Least(j) <= Least(k)
  {
    if j == k {
    } else {
      LeastGrows(j, k - 1);
    }
  }

  /** The k-byte codes are the codes of exactly one contiguous interval. */
  lemma CodeLengthInterval(n: nat, k: nat)
    requires k > 0
    ensures |Encode(n)| == k <==> Least(k) <= n < Least(k + 1)
  {
    EncodeThenValue(n);
    var code := Encode(n);
    CarryInterval(code[..|code| - 1]);
    if |code| < k {
      LeastGrows(|code| + 1, k);
    } else if |code| > k {
      LeastGrows(k + 1, |code|);
    }
  }

  // ---------- the loop on a 64-bit word ----------

  lemma Pow2Of7()
    ensures Pow2(7) == 0x80
  {
    assert Pow2(3) == 8;
    assert Pow2(5) == 32;
  }

  lemma MaskBits(b: byte)
    ensures And(b, 0x7F) == b % 0x80
    ensures And(b, 0x80) > 0 <==> b >= 0x80
  {
    Pow2Of7();
    AndLowMaskIsModulo(b, 7);
    AndOneBit(b, 7);
  }

  lemma ShiftDropsHighBits(n: U64)
    ensures Shl64(n, 7) == n % 0x200_0000_0000_0000 * 0x80
  {
    Pow2Of7();
    var high, kept := n / 0x200_0000_0000_0000, n % 0x200_0000_0000_0000;
    assert n * 0x80 == high * 0x1_0000_0000_0000_0000 + kept * 0x80;
    EuclideanUnique(n * 0x80, 0x1_0000_0000_0000_0000, high, kept * 0x80);
  }

  lemma ReduceAfterShift(n: nat, low: nat)
    requires low < 0x80
    ensures n % 0x200_0000_0000_0000 * 0x80 + low == (n * 0x80 + low) % 0x1_0000_0000_0000_0000
  {
    var high, kept := n / 0x200_0000_0000_0000, n % 0x200_0000_0000_0000;
    assert n * 0x80 + low == high * 0x1_0000_0000_0000_0000 + (kept * 0x80 + low);
    EuclideanUnique(n * 0x80 + low, 0x1_0000_0000_0000_0000, high, kept * 0x80 + low);
  }

  /** The shift and the or together are multiply-and-add modulo 2^64. */
  lemma ShiftOrIsMultiplyAdd(n: U64, b: byte)
    ensures Or(Shl64(n, 7), And(b, 0x7F)) == (n * 0x80 + b % 0x80) % 0x1_0000_0000_0000_0000
  {
    hide Or, And, Shl64;
    Pow2Of7();
    MaskBits(b);
    ShiftDropsHighBits(n);
    OrIsAdditionOnDisjointBits(n % 0x200_0000_0000_0000, b % 0x80, 7);
    ReduceAfterShift(n, b % 0x80);
  }

  /** `(n << 7) | (b & 0x7F) as usize`. */
  function ShiftIn(n: U64, b: byte): U64 {
    ShiftOrIsMultiplyAdd(n, b);
    Or(Shl64(n, 7), And(b, 0x7F))
  }

  /** `(c % 2^64) * 128 + low` and `c * 128 + low` agree modulo 2^64. */
  lemma ReduceThenShift(c: nat, low: nat)
    requires low <= 0x80
    ensures (c % 0x1_0000_0000_0000_0000 * 0x80 + low) % 0x1_0000_0000_0000_0000 == (c * 0x80 + low) % 0x1_0000_0000_0000_0000
  {
    ReduceBefore(c, 0x80, low, 0x1_0000_0000_0000_0000);
  }

  lemma ReduceThenStep(c: nat, reduced: U64, low: nat)
    requires low < 0x80 && reduced == c % 0x1_0000_0000_0000_0000
    ensures ((reduced * 0x80 + low) % 0x1_0000_0000_0000_0000 + 1) % 0x1_0000_0000_0000_0000
         == (c * 0x80 + low + 1) % 0x1_0000_0000_0000_0000
  {
    ModuloPlusOne(reduced * 0x80 + low, 0x1_0000_0000_0000_0000);
    ReduceBefore(c, 0x80, low + 1, 0x1_0000_0000_0000_0000);
  }

  function MachineCarry(bytes: seq<byte>): U64 {
    if bytes == [] then 0
    else (ShiftIn(MachineCarry(bytes[..|bytes| - 1]), bytes[|bytes| - 1]) + 1) % 0x1_0000_0000_0000_0000
  }

  function MachineValue(code: seq<byte>): U64
    requires |code| > 0
  {
    ShiftIn(MachineCarry(code[..|code| - 1]), code[|code| - 1])
  }

  lemma CarryStep(n: U64, c: nat, b: byte)
    requires n == c % 0x1_0000_0000_0000_0000
    ensures (ShiftIn(n, b) + 1) % 0x1_0000_0000_0000_0000 == (c * 0x80 + b % 0x80 + 1) % 0x1_0000_0000_0000_0000
  {
    ShiftOrIsMultiplyAdd(n, b);
    ReduceThenStep(c, n, b % 0x80);
    hide Or, And, Shl64;
  }

  lemma {:induction false} MachineCarryIsModular(bytes: seq<byte>)
    ensures MachineCarry(bytes) == Carry(bytes) % 0x1_0000_0000_0000_0000
  {
    if bytes == [] {
    } else {
      var rest, last := bytes[..|bytes| - 1], bytes[|bytes| - 1];
      MachineCarryIsModular(rest);
      CarryStep(MachineCarry(rest), Carry(rest), last);
      hide ShiftIn;
    }
  }

  /** The loop computes the value of every code, of any length, modulo 2^64. */
  lemma MachineValueIsModular(code: seq<byte>)
    requires |code| > 0
    ensures MachineValue(code) == Value(code) % 0x1_0000_0000_0000_0000
  {
    var rest, last := code[..|code| - 1], code[|code| - 1];
    MachineCarryIsModular(rest);
    ShiftOrIsMultiplyAdd(MachineCarry(rest), last);
    ReduceThenShift(Carry(rest), last % 0x80);
  }

  lemma MachineValueExactIff(code: seq<byte>)
    requires |code| > 0
    ensures MachineValue(code) == Value(code) <==> Value(code) < 0x1_0000_0000_0000_0000
  {
    MachineValueIsModular(code);
    ModuloOfSelfIff(Value(code), 0x1_0000_0000_0000_0000);
    hide MachineValue, Value;
  }

  /** The first value that does not fit is read as zero. */
  lemma LongCodeIsLost()
    ensures MachineValue(Encode(0x1_0000_0000_0000_0000)) == 0
  {
    EncodeThenValue(0x1_0000_0000_0000_0000);
    MachineValueIsModular(Encode(0x1_0000_0000_0000_0000));
  }

  lemma NineBytesBound()
    ensures Least(10) < 0xFFFF_FFFF_FFFF_FFFF
  {
    assert Least(2) == 0x80;
    assert Least(4) == 0x80 * (Least(3) + 1);
    assert Least(6) == 0x80 * (Least(5) + 1);
    assert Least(8) == 0x80 * (Least(7) + 1);
  }

  /** Up to nine bytes nothing is lost: neither the shift nor the increment leaves the word. */
  lemma NineBytesAreExact(code: seq<byte>)
    requires 0 < |code| <= 9
    ensures MachineValue(code) == Value(code)
    ensures forall k :: 0 <= k < |code| ==> NoLoss(code[..k], code[k])
  {
    forall k | 0 <= k < |code|
      ensures NoLoss(code[..k], code[k])
    {
      NoLossInShortCode(code[..k], code[k]);
    }
    NoLossInShortCode(code[..|code| - 1], code[|code| - 1]);
    MachineValueExactIff(code);
  }

  /** Before byte `b` the word is still exact, and shifting `b` in and adding one fits it. */
  ghost predicate NoLoss(before: seq<byte>, b: byte) {
    && MachineCarry(before) == Carry(before)
    && Carry(before) * 0x80 + b % 0x80 + 1 < 0x1_0000_0000_0000_0000
  }

  lemma NoLossInShortCode(before: seq<byte>, b: byte)
    requires |before| < 9
    ensures NoLoss(before, b)
  {
    assert Carry(before) * 0x80 + 0x7F < 0xFFFF_FFFF_FFFF_FFFF by {
      CarryInterval(before);
      LeastGrows(|before| + 2, 10);
      NineBytesBound();
    }
    MachineCarryIsModular(before);
    SmallModulo(Carry(before));
  }

  lemma SmallModulo(n: nat)
    requires n < 0x1_0000_0000_0000_0000
    ensures n % 0x1_0000_0000_0000_0000 == n
  {
  }

  // ---------- reading from a stream ----------

  /** Bytes up to and including the first one without the top bit, if there is one. */
  function CodeLength(s: seq<byte>): (k: Option<nat>)
    ensures k.Some? ==> 0 < k.value <= |s| && Terminated(s[..k.value])
    ensures k.None? <==> forall i :: 0 <= i < |s| ==> s[i] >= 0x80
  {
    if s == [] then None
    else if s[0] < 0x80 then Some(1)
    else
      var tail := CodeLength(s[1..]);
      assert forall i :: 0 < i < |s| ==> s[i] == s[1..][i - 1];
      if tail.None? then None else Some(tail.value + 1)
  }

  datatype Varint = Varint(value: U64, length: nat)

  function ReadFrom(s: seq<byte>): Option<Varint> {
    var k := CodeLength(s);
    if k.None? then None else Some(Varint(MachineValue(s[..k.value]), k.value))
  }

  lemma {:induction false} FirstCodeIsFound(code: seq<byte>, rest: seq<byte>)
    requires Terminated(code)
    ensures CodeLength(code + rest) == Some(|code|)
  {
    if |code| > 1 {
      assert Terminated(code[1..]);
      FirstCodeIsFound(code[1..], rest);
      assert (code + rest)[1..] == code[1..] + rest;
    }
  }

  lemma ReadFromCode(s: seq<byte>, code: seq<byte>, rest: seq<byte>)
    requires Terminated(code) && s == code + rest
    ensures ReadFrom(s) == Some(Varint(MachineValue(code), |code|))
  {
    FirstCodeIsFound(code, rest);
    assert s[..|code|] == code;
  }

  lemma ReadFromExactCode(code: seq<byte>, n: U64, rest: seq<byte>)
    requires Terminated(code) && Value(code) == n
    ensures ReadFrom(code + rest) == Some(Varint(n, |code|))
  {
    ReadFromCode(code + rest, code, rest);
    MachineValueExactIff(code);
  }

  /** Writing a number and reading it back gives the number and stops right after its code. */
  lemma ReadBack(n: U64, rest: seq<byte>)
    ensures ReadFrom(Encode(n) + rest) == Some(Varint(n, |Encode(n)|))
  {
    EncodeThenValue(n);
    ReadFromExactCode(Encode(n), n, rest);
  }

  /** One turn of the loop in `read_varint`. */
  function LoopStep(n: U64, b: byte): (r: (U64, bool))
    ensures r.1 <==> b >= 0x80
  {
    MaskBits(b);
    var shifted := ShiftIn(n, b);
    if And(b, 0x80) > 0 then ((shifted + 1) % 0x1_0000_0000_0000_0000, true) else (shifted, false)
  }

  lemma StepCode(before: seq<byte>, b: byte)
    ensures LoopStep(MachineCarry(before), b)
      == if b >= 0x80 then (MachineCarry(before + [b]), true) else (MachineValue(before + [b]), false)
  {
    MaskBits(b);
    assert (before + [b])[..|before|] == before;
  }

  /** The in-memory cursor that index records are decoded from. */
  class Cursor {
    const data: seq<byte>
    var pos: nat

    ghost predicate Valid()
      reads this
    {
      pos <= |data|
    }

    ghost function Rest(): seq<byte>
      reads this
      requires Valid()
    {
      data[pos..]
    }

    constructor (data: seq<byte>)
      ensures Valid() && this.data == data && pos == 0
    {
      this.data := data;
      pos := 0;
    }

    method ReadU8() returns (b: Option<byte>)
      requires Valid()
      modifies this
      ensures Valid()
      ensures b.Some? <==> old(pos) < |data|
      ensures b.Some? ==> b.value == data[old(pos)] && pos == old(pos) + 1
      ensures b.None? ==> pos == old(pos)
    {
      if pos < |data| {
        b := Some(data[pos]);
        pos := pos + 1;
      } else {
        b := None;
      }
    }

    /** `read_exact` of a fixed number of bytes; at the end of the data nothing is left. */
    method ReadExact(count: nat) returns (bytes: Option<seq<byte>>)
      requires Valid()
      modifies this
      ensures Valid()
      ensures bytes.Some? <==> count <= |old(Rest())|
      ensures bytes.Some? ==> bytes.value == old(Rest())[..count] && pos == old(pos) + count
      ensures bytes.None? ==> pos == |data|
    {
      if count <= |data| - pos {
        bytes := Some(data[pos..pos + count]);
        pos := pos + count;
      } else {
        bytes := None;
        pos := |data|;
      }
    }

    method ReadVarint() returns (r: Option<U64>)
      requires Valid()
      modifies this
      ensures Valid()
      ensures var v := ReadFrom(old(Rest()));
        if v.None? then r.None? && pos == |data|
        else r == Some(v.value.value) && pos == old(pos) + v.value.length
    {
      ghost var s, start := Rest(), pos;
      var n: U64 := 0;
      var more := true;
      while more
        invariant Valid() && start <= pos
        invariant more ==> (forall i :: 0 <= i < pos - start ==> s[i] >= 0x80) && n == MachineCarry(s[..pos - start])
        invariant !more ==> Terminated(s[..pos - start]) && n == MachineValue(s[..pos - start])
        decreases more, |data| - pos
      {
        ghost var before := s[..pos - start];
        var ch := ReadU8();
        if ch.None? {
          return None;
        }
        assert s[..pos - start] == before + [ch.value];
        StepCode(before, ch.value);
        var (next, again) := LoopStep(n, ch.value);
        n, more := next, again;
      }
      ReadFromCode(s, s[..pos - start], s[pos - start..]);
      return Some(n);
    }
  }
}
