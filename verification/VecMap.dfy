/** The counted slot array that holds the outputs of one transaction in memory. */
module VecMap {
  import opened Bits
  import opened Wrappers

  /** The two fields of a `VecMap`, as a value. */
  datatype Slots<T> = Slots(size: U32, inner: seq<Option<T>>)

  function Occupied<T>(inner: seq<Option<T>>): nat {
    if inner == [] then 0
    else Occupied(inner[..|inner| - 1]) + if inner[|inner| - 1].Some? then 1 else 0
  }

  /** The size field counts the occupied slots. */
  predicate Counted<T>(v: Slots<T>) {
    v.size == Occupied(v.inner)
  }

  predicate AllTaken<T>(inner: seq<Option<T>>) {
    forall i :: 0 <= i < |inner| ==> inner[i].None?
  }

  /** `slice.len() as u32`. */
  function NewSlots<T>(inner: seq<Option<T>>): Slots<T> {
    Slots(|inner| % 0x1_0000_0000, inner)
  }

  predicate NoSlotLeft<T>(v: Slots<T>) {
    v.size == 0
  }

  /** `self.size -= 1` as builds without overflow checks compute it; with them, 0 panics. */
  function Decrement(size: U32): U32 {
    (size - 1) % 0x1_0000_0000
  }

  /** What `remove` returns, and what it leaves. */
  function TakeSlot<T>(v: Slots<T>, index: nat): (Option<T>, Slots<T>) {
    if index >= |v.inner| then (None, v)
    else
      var element := v.inner[index];
      (element, Slots(if element.Some? then Decrement(v.size) else v.size, v.inner[index := None]))
  }

  lemma {:induction false} OccupiedAfterTake<T>(inner: seq<Option<T>>, index: nat)
    requires index < |inner|
    ensures Occupied(inner[index := None]) == Occupied(inner) - if inner[index].Some? then 1 else 0
  {
    var n := |inner| - 1;
    if index == n {
      assert inner[index := None][..n] == inner[..n];
    } else {
      assert inner[index := None][..n] == inner[..n][index := None];
      OccupiedAfterTake(inner[..n], index);
    }
  }

  lemma {:induction false} OccupiedBounds<T>(inner: seq<Option<T>>)
    ensures Occupied(inner) <= |inner|
    ensures Occupied(inner) == |inner| <==> forall i :: 0 <= i < |inner| ==> inner[i].Some?
    ensures Occupied(inner) == 0 <==> AllTaken(inner)
  {
    if inner == [] {
    } else {
      OccupiedBounds(inner[..|inner| - 1]);
      assert inner == inner[..|inner| - 1] + [inner[|inner| - 1]];
    }
  }

  /** A new map counts right exactly when all its slots are occupied, short of 2^32 of them. */
  lemma FromVecCountsIff<T>(inner: seq<Option<T>>)
    requires |inner| < 0x1_0000_0000
    ensures Counted(NewSlots(inner)) <==> forall i :: 0 <= i < |inner| ==> inner[i].Some?
  {
    OccupiedBounds(inner);
  }

  /** Removing keeps the count right, so "size is zero" goes on meaning "every slot is taken". */
  lemma RemovalKeepsCount<T>(v: Slots<T>, index: nat)
    requires Counted(v)
    ensures Counted(TakeSlot(v, index).1)
    ensures NoSlotLeft(TakeSlot(v, index).1) <==> AllTaken(TakeSlot(v, index).1.inner)
    ensures TakeSlot(v, index).0.Some? ==> v.size > 0
  {
    if index < |v.inner| {
      OccupiedAfterTake(v.inner, index);
    }
    OccupiedBounds(TakeSlot(v, index).1.inner);
  }

  /** An element comes out once: a second removal at its index finds nothing and changes nothing. */
  lemma RemovedOnce<T>(v: Slots<T>, index: nat)
    ensures TakeSlot(TakeSlot(v, index).1, index) == (None, TakeSlot(v, index).1)
    ensures forall j: nat :: j != index ==> TakeSlot(TakeSlot(v, index).1, j).0 == TakeSlot(v, j).0
  {
    if index < |v.inner| {
      assert v.inner[index := None][index := None] == v.inner[index := None];
    }
  }

  class VecMap<T> {
    var size: U32
    const inner: array<Option<T>>

    ghost function Value(): Slots<T>
      reads this, inner
    {
      Slots(size, inner[..])
    }

    ghost predicate Valid()
      reads this, inner
    {
      Counted(Value())
    }

    constructor FromVec(slice: array<Option<T>>)
      ensures inner == slice && Value() == NewSlots(slice[..])
      ensures (forall i :: 0 <= i < slice.Length ==> slice[i].Some?) && slice.Length < 0x1_0000_0000 ==> Valid()
    {
      size := slice.Length % 0x1_0000_0000;
      inner := slice;
      new;
      if slice.Length < 0x1_0000_0000 {
        FromVecCountsIff(slice[..]);
      }
    }

    method IsEmpty() returns (empty: bool)
      ensures empty <==> NoSlotLeft(Value())
      ensures Valid() ==> (empty <==> AllTaken(inner[..]))
    {
      OccupiedBounds(inner[..]);
      empty := size == 0;
    }

    method Remove(index: nat) returns (element: Option<T>)
      modifies this`size, inner
      ensures (element, Value()) == TakeSlot(old(Value()), index)
      ensures old(Valid()) ==> Valid()
    {
      if Valid() {
        RemovalKeepsCount(Value(), index);
      }
      if index >= inner.Length {
        return None;
      }
      element := inner[index];
      inner[index] := None;
      if element.Some? {
        size := Decrement(size);
      }
    }
  }
}
