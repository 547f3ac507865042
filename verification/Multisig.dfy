/**
 Recognising bare multi-signature scripts and extracting their addresses.

 A script is the list of instructions its bytes decode to; `None` is an instruction that does
 not decode.
 */
module Multisig {
  import opened Bits
  import opened Wrappers

  datatype Instruction = PushBytes(data: seq<byte>) | Op(code: byte)

  type Script = seq<Option<Instruction>>

  const OP_PUSHBYTES_0: byte := 0x00
  const OP_PUSHNUM_NEG1: byte := 0x4f
  const OP_PUSHNUM_1: byte := 0x51
  const OP_PUSHNUM_16: byte := 0x60
  const OP_CHECKMULTISIG: byte := 0xae
  const OP_CHECKMULTISIGVERIFY: byte := 0xaf

  // ---------- the scripts meant ----------

  function Pushes(keys: seq<seq<byte>>): (r: Script)
    ensures |r| == |keys|
    ensures forall i :: 0 <= i < |keys| ==> r[i] == Some(PushBytes(keys[i]))
  {
    seq(|keys|, i requires 0 <= i < |keys| => Some(PushBytes(keys[i])))
  }

  /** OP_m, the keys, OP_n, CHECKMULTISIG or CHECKMULTISIGVERIFY. */
  function Build(m: int, keys: seq<seq<byte>>, verify: bool): Script
    requires 1 <= m <= 16 && 1 <= |keys| <= 16
  {
    [Some(Op(0x50 + m))] + Pushes(keys)
    + [Some(Op(0x50 + |keys|)), Some(Op(if verify then OP_CHECKMULTISIGVERIFY else OP_CHECKMULTISIG))]
  }

  ghost predicate BuiltFrom(script: Script, m: int, keys: seq<seq<byte>>, verify: bool) {
    1 <= m <= 16 && 1 <= |keys| <= 16 && script == Build(m, keys, verify)
  }

  ghost predicate IsMultisigScript(script: Script) {
    exists m, keys, verify :: BuiltFrom(script, m, keys, verify)
  }

  lemma BuildAt(m: int, keys: seq<seq<byte>>, verify: bool)
    requires 1 <= m <= 16 && 1 <= |keys| <= 16
    ensures var s := Build(m, keys, verify);
      && |s| == |keys| + 3
      && s[0] == Some(Op(0x50 + m))
      && (forall i :: 0 <= i < |keys| ==> s[i + 1] == Some(PushBytes(keys[i])))
      && s[|keys| + 1] == Some(Op(0x50 + |keys|))
      && s[|keys| + 2] == Some(Op(if verify then OP_CHECKMULTISIGVERIFY else OP_CHECKMULTISIG))
  {
  }

  /** A script says in one way only how many signatures it asks for, and of which keys. */
  lemma BuildIsInjective(script: Script, m: int, keys: seq<seq<byte>>, verify: bool,
                         m': int, keys': seq<seq<byte>>, verify': bool)
    requires BuiltFrom(script, m, keys, verify) && BuiltFrom(script, m', keys', verify')
    ensures m == m' && keys == keys' && verify == verify'
  {
    BuildAt(m, keys, verify);
    BuildAt(m', keys', verify');
    forall i | 0 <= i < |keys| ensures keys[i] == keys'[i] {
      assert script[i + 1] == Some(PushBytes(keys[i])) == Some(PushBytes(keys'[i]));
    }
  }

  // ---------- small numbers ----------

  function DecodeFromOpN(op: byte): int {
    if op == OP_PUSHBYTES_0 then 0
    else if op == OP_PUSHNUM_NEG1 then -1
    else op + 1 - OP_PUSHNUM_1
  }

  function GetNumKeys(i: Instruction): Option<int> {
    match i
    case PushBytes(_) => None
    case Op(op) =>
      if !(op == OP_PUSHNUM_NEG1 || op == OP_PUSHBYTES_0 || OP_PUSHNUM_1 <= op <= OP_PUSHNUM_16) then None
      else Some(DecodeFromOpN(op))
  }

  /** A count of one or more is read from OP_1 .. OP_16 and from nothing else. */
  lemma NumKeysMeaning(i: Instruction, n: int)
    ensures GetNumKeys(i) == Some(n) && n >= 1 <==> 1 <= n <= 16 && i == Op(0x50 + n)
  {
  }

  // ---------- the recogniser ----------

  method Chunks(script: Script) returns (r: Option<seq<Instruction>>)
    ensures r.None? <==> None in script
    ensures r.Some? ==> script == Somes(r.value)
  {
    var chunks, i := [], 0;
    while i < |script|
      invariant 0 <= i <= |script|
      invariant script[..i] == Somes(chunks)
    {
      if script[i].None? {
        return None;
      }
      chunks := chunks + [script[i].value];
      i := i + 1;
    }
    assert script[..i] == script;
    r := Some(chunks);
  }

  predicate IsCheckMultisig(i: Instruction) {
    i == Op(OP_CHECKMULTISIG) || i == Op(OP_CHECKMULTISIGVERIFY)
  }

  predicate IsCount(i: Instruction, n: int) {
    GetNumKeys(i) == Some(n) && n >= 1
  }

  /** What the recogniser looks at, one instruction at a time. */
  predicate HasShape(chunks: seq<Instruction>) {
    var n := |chunks| - 3;
    && n >= 1
    && IsCheckMultisig(chunks[n + 2])
    && IsCount(chunks[n + 1], n)
    && (forall i :: 1 <= i <= n ==> chunks[i].PushBytes?)
    && GetNumKeys(chunks[0]).Some? && GetNumKeys(chunks[0]).value >= 1
  }

  function Keys(chunks: seq<Instruction>): (keys: seq<seq<byte>>)
    requires HasShape(chunks)
    ensures |keys| == |chunks| - 3
    ensures forall i :: 0 <= i < |keys| ==> keys[i] == chunks[i + 1].data
  {
    seq(|chunks| - 3, i requires 0 <= i < |chunks| - 3 => chunks[i + 1].data)
  }

  lemma PushAt(chunks: seq<Instruction>, i: nat)
    requires HasShape(chunks) && 1 <= i <= |chunks| - 3
    ensures chunks[i] == PushBytes(Keys(chunks)[i - 1])
  {
  }

  lemma ShapeIsBuilt(chunks: seq<Instruction>)
    requires HasShape(chunks)
    ensures BuiltFrom(Somes(chunks), GetNumKeys(chunks[0]).value, Keys(chunks),
                      chunks[|chunks| - 1] == Op(OP_CHECKMULTISIGVERIFY))
  {
    var m, keys, n := GetNumKeys(chunks[0]).value, Keys(chunks), |chunks| - 3;
    var verify := chunks[n + 2] == Op(OP_CHECKMULTISIGVERIFY);
    NumKeysMeaning(chunks[0], m);
    NumKeysMeaning(chunks[n + 1], n);
    BuildAt(m, keys, verify);
    assert chunks[n + 2] == Op(if verify then OP_CHECKMULTISIGVERIFY else OP_CHECKMULTISIG);
    hide GetNumKeys, Build, HasShape, Keys;
    assert |Build(m, keys, verify)| == |Somes(chunks)|;
    forall i | 0 <= i < n + 3 ensures Somes(chunks)[i] == Build(m, keys, verify)[i] {
      if 1 <= i <= n {
        PushAt(chunks, i);
        assert Build(m, keys, verify)[i - 1 + 1] == Some(PushBytes(keys[i - 1]));
      }
    }
  }

  lemma BuiltHasShape(chunks: seq<Instruction>, m: int, keys: seq<seq<byte>>, verify: bool)
    requires BuiltFrom(Somes(chunks), m, keys, verify)
    ensures HasShape(chunks)
  {
    BuildAt(m, keys, verify);
    var n := |keys|;
    assert |chunks| == n + 3;
    assert forall i :: 0 <= i < n + 3 ==> Some(chunks[i]) == Build(m, keys, verify)[i];
    assert IsCount(chunks[n + 1], n) by { NumKeysMeaning(chunks[n + 1], n); }
    NumKeysMeaning(chunks[0], m);
    hide GetNumKeys, Build;
    forall i | 1 <= i <= n ensures chunks[i].PushBytes? {
      assert Build(m, keys, verify)[i - 1 + 1] == Some(PushBytes(keys[i - 1]));
    }
  }

  method IsMultisigList(chunks: seq<Instruction>) returns (r: bool)
    ensures r <==> HasShape(chunks)
  {
    if |chunks| < 4 {
      return false;
    }
    var last := chunks[|chunks| - 1];
    if last.PushBytes? || !(last.code == OP_CHECKMULTISIG || last.code == OP_CHECKMULTISIGVERIFY) {
      return false;
    }
    var numKeys := GetNumKeys(chunks[|chunks| - 2]);
    if numKeys.None? || numKeys.value < 1 || numKeys.value + 3 != |chunks| {
      return false;
    }
    var i := 1;
    while i < |chunks| - 2
      invariant 1 <= i <= |chunks| - 2
      invariant forall k :: 1 <= k < i ==> chunks[k].PushBytes?
    {
      if chunks[i].Op? {
        return false;
      }
      i := i + 1;
    }
    numKeys := GetNumKeys(chunks[0]);
    r := numKeys.Some? && numKeys.value >= 1;
  }

  /** True exactly for the error-free scripts OP_m, n keys, OP_n, CHECKMULTISIG[VERIFY] with m
      and n from 1 to 16. */
  method IsMultisig(script: Script) returns (r: bool)
    ensures r <==> IsMultisigScript(script)
  {
    var chunks := Chunks(script);
    if chunks.None? {
      forall m, keys, verify ensures !BuiltFrom(script, m, keys, verify) {
        BuiltDecodes(script, m, keys, verify);
      }
      return false;
    }
    r := IsMultisigList(chunks.value);
    if r {
      ShapeIsBuilt(chunks.value);
    } else {
      forall m, keys, verify ensures !BuiltFrom(script, m, keys, verify) {
        if BuiltFrom(script, m, keys, verify) {
          BuiltHasShape(chunks.value, m, keys, verify);
        }
      }
    }
  }

  lemma BuiltDecodes(script: Script, m: int, keys: seq<seq<byte>>, verify: bool)
    ensures BuiltFrom(script, m, keys, verify) ==> None !in script
  {
  }

  // ---------- the extractor ----------

  datatype AddressResult<A> = Addresses(list: seq<A>) | NotMultisigPanic | UnreachablePanic

  /** One address per key, or none at all if one of the keys is no public key. */
  function KeyAddresses<A>(keys: seq<seq<byte>>, address: seq<byte> -> Option<A>): seq<A> {
    if forall i :: 0 <= i < |keys| ==> address(keys[i]).Some? then
      seq(|keys|, i requires 0 <= i < |keys| => address(keys[i]).value)
    else []
  }

  /** `filter_map(|o| o.ok())`. */
  method DecodedInstructions(script: Script) returns (ops: seq<Instruction>)
    ensures None !in script ==> script == Somes(ops)
  {
    ops := [];
    var i := 0;
    while i < |script|
      invariant 0 <= i <= |script|
      invariant None !in script ==> script[..i] == Somes(ops)
    {
      if script[i].Some? {
        ops := ops + [script[i].value];
      }
      i := i + 1;
    }
    assert script[..i] == script;
  }

  method ReadKeys<A>(ops: seq<Instruction>, numKeys: int, address: seq<byte> -> Option<A>) returns (r: AddressResult<A>)
    requires HasShape(ops) && numKeys == |ops| - 3
    ensures r == Addresses(KeyAddresses(Keys(ops), address))
  {
    ghost var keys := Keys(ops);
    var publicKeys: seq<A>, i := [], 1;
    while i < |ops| && i <= numKeys
      invariant 1 <= i <= numKeys + 1 && |publicKeys| == i - 1
      invariant forall k :: 0 <= k < i - 1 ==> address(keys[k]) == Some(publicKeys[k])
    {
      if ops[i].Op? {
        return UnreachablePanic;
      }
      var a := address(ops[i].data);
      if a.None? {
        assert address(keys[i - 1]).None?;
        return Addresses([]);
      }
      publicKeys := publicKeys + [a.value];
      i := i + 1;
    }
    r := Addresses(publicKeys);
  }

  /** On every script the recogniser accepts, the extractor stays clear of its unreachable arms
      and gives the address of each key in order, or nothing; on any other script it panics. */
  method MultisigAddresses<A>(script: Script, address: seq<byte> -> Option<A>) returns (r: AddressResult<A>)
    ensures !IsMultisigScript(script) ==> r.NotMultisigPanic?
    ensures forall m, keys, verify :: BuiltFrom(script, m, keys, verify) ==> r == Addresses(KeyAddresses(keys, address))
  {
    var recognised := IsMultisig(script);
    if !recognised {
      return NotMultisigPanic;
    }
    var ops := DecodedInstructions(script);
    ghost var m, keys, verify :| BuiltFrom(script, m, keys, verify);
    BuiltDecodes(script, m, keys, verify);
    BuiltHasShape(ops, m, keys, verify);
    var count := ops[|ops| - 2];
    if count.PushBytes? {
      return UnreachablePanic;
    }
    r := ReadKeys(ops, DecodeFromOpN(count.code), address);
    ShapeIsBuilt(ops);
    forall m', keys', verify' | BuiltFrom(script, m', keys', verify')
      ensures keys' == Keys(ops)
    {
      BuildIsInjective(script, m', keys', verify', GetNumKeys(ops[0]).value, Keys(ops),
                       ops[|ops| - 1] == Op(OP_CHECKMULTISIGVERIFY));
    }
  }
}
