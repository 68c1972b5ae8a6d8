/**
  mapStructDesc (internal/reflect/descmap.go): a hash map from Go types to descriptors that
  is read without a lock. A slot points to an array of items which never changes once it is
  published; Set replaces the array.
 */
module DescMap {
  import opened Common

  const BUCKETS: nat := 0x1_0000

  /** Identity of a descriptor. */
  type DescRef = nat

  datatype Item = Item(abiType: nat, sd: DescRef)

  function Bucket(abiType: nat): nat {
    abiType % BUCKETS
  }

  /** The descriptor stored for a type, found by scanning from position `i` on. */
  function Find(items: seq<Item>, abiType: nat, i: nat): Option<DescRef>
    requires i <= |items|
    decreases |items| - i
  {
    if i == |items| then None
    else if items[i].abiType == abiType then Some(items[i].sd)
    else Find(items, abiType, i + 1)
  }

  /** The items of one slot: at most one for each type, and only types of this bucket. */
  ghost predicate SlotOk(items: seq<Item>, bk: nat) {
    && (forall i :: 0 <= i < |items| ==> Bucket(items[i].abiType) == bk)
    && (forall i, j :: 0 <= i < j < |items| ==> items[i].abiType != items[j].abiType)
  }

  /** The items with `sd` stored for a type. */
  function Put(items: seq<Item>, abiType: nat, sd: DescRef, i: nat): seq<Item>
    requires i <= |items|
    decreases |items| - i
  {
    if i == |items| then items + [Item(abiType, sd)]
    else if items[i].abiType == abiType then items[i := Item(abiType, sd)]
    else Put(items, abiType, sd, i + 1)
  }

  lemma {:induction false} PutKeepsSlot(items: seq<Item>, abiType: nat, sd: DescRef, i: nat)
    requires i <= |items| && SlotOk(items, Bucket(abiType))
    requires forall k :: 0 <= k < i ==> items[k].abiType != abiType
    ensures SlotOk(Put(items, abiType, sd, i), Bucket(abiType))
    decreases |items| - i
  {
    if i < |items| && items[i].abiType != abiType {
      PutKeepsSlot(items, abiType, sd, i + 1);
    }
  }

  lemma {:induction false} FindIs(items: seq<Item>, k: nat, i: nat, j: nat)
    requires i <= j < |items| && items[j].abiType == k
    requires forall l :: i <= l < j ==> items[l].abiType != k
    ensures Find(items, k, i) == Some(items[j].sd)
    decreases j - i
  {
    if i < j {
      FindIs(items, k, i + 1, j);
    }
  }

  lemma {:induction false} FindNone(items: seq<Item>, k: nat, i: nat)
    requires i <= |items| && forall l :: i <= l < |items| ==> items[l].abiType != k
    ensures Find(items, k, i) == None
    decreases |items| - i
  {
    if i < |items| {
      FindNone(items, k, i + 1);
    }
  }

  /** Two arrays that differ only in what they store for other types. */
  lemma {:induction false} FindSame(items: seq<Item>, other: seq<Item>, k: nat, i: nat)
    requires i <= |items| <= |other|
    requires forall l :: 0 <= l < |items| ==> items[l].abiType == other[l].abiType
    requires forall l :: 0 <= l < |items| && items[l].abiType == k ==> items[l] == other[l]
    requires forall l :: |items| <= l < |other| ==> other[l].abiType != k
    ensures Find(other, k, i) == Find(items, k, i)
    decreases |items| - i
  {
    if i == |items| {
      FindNone(other, k, i);
    } else if items[i].abiType != k {
      FindSame(items, other, k, i + 1);
    }
  }

  lemma {:induction false} FindAfterPut(items: seq<Item>, abiType: nat, sd: DescRef, i: nat, k: nat)
    requires i <= |items| && forall l :: 0 <= l < i ==> items[l].abiType != abiType
    ensures Find(Put(items, abiType, sd, i), k, 0) == if k == abiType then Some(sd) else Find(items, k, 0)
    decreases |items| - i
  {
    var r := Put(items, abiType, sd, i);
    if i < |items| && items[i].abiType != abiType {
      FindAfterPut(items, abiType, sd, i + 1, k);
    } else if k == abiType {
      FindIs(r, k, 0, i);
    } else {
      FindSame(items, r, k, 0);
    }
  }

  class MapStructDesc {
    const slots: array<array?<Item>>

    /** The arrays that are published now. */
    ghost function Published(): set<object>
      reads slots
    {
      set k | 0 <= k < slots.Length && slots[k] != null :: slots[k]
    }

    function Items(bk: nat): seq<Item>
      requires bk < slots.Length
      reads slots, if slots[bk] == null then {} else {slots[bk]}
    {
      if slots[bk] == null then [] else slots[bk][..]
    }

    ghost predicate Valid()
      reads slots, Published()
    {
      && slots.Length == BUCKETS
      && forall bk :: 0 <= bk < BUCKETS ==> SlotOk(Items(bk), bk)
    }

    /** The map that the slots stand for. */
    ghost function Lookup(abiType: nat): Option<DescRef>
      requires slots.Length == BUCKETS
      reads slots, Published()
    {
      Find(Items(Bucket(abiType)), abiType, 0)
    }

    constructor ()
      ensures slots.Length == 65536
      ensures Valid() && fresh(slots) && Published() == {} && forall k: nat :: Lookup(k) == None
    {
      slots := new array?<Item>[BUCKETS](_ => null);
    }

    method Get(abiType: nat) returns (r: Option<DescRef>)
      requires Valid()
      ensures r == Lookup(abiType)
    {
      var slot := slots[Bucket(abiType)];
      if slot == null {
        return None;
      }
      var i := 0;
      while i < slot.Length
        invariant 0 <= i <= slot.Length
        invariant Find(slot[..], abiType, 0) == Find(slot[..], abiType, i)
      {
        if slot[i].abiType == abiType {
          return Some(slot[i].sd);
        }
        i := i + 1;
      }
      return None;
    }

    /** The caller holds the lock. No published array is written to: only a slot changes. */
    method Set(abiType: nat, sd: DescRef)
      requires Valid()
      modifies slots
      ensures Valid() && fresh(Published() - old(Published()))
      ensures forall k: nat :: Lookup(k) == if k == abiType then Some(sd) else old(Lookup(k))
    {
      hide Put, Find, SlotOk;
      var cur := Get(abiType);
      if cur == Some(sd) {
        return;
      }
      var bk := Bucket(abiType);
      ghost var before := Items(bk);
      var items := Replacement(slots[bk], abiType, sd);
      slots[bk] := items;
      PutKeepsSlot(before, abiType, sd, 0);
      assert forall k :: 0 <= k < BUCKETS ==> Items(k) == if k == bk then items[..] else old(Items(k));
      forall k: nat ensures Lookup(k) == if k == abiType then Some(sd) else old(Lookup(k)) {
        FindAfterPut(before, abiType, sd, 0, k);
      }
    }

    /** A new array with the items of `p` and the new one. */
    static method Replacement(p: array?<Item>, abiType: nat, sd: DescRef) returns (items: array<Item>)
      ensures fresh(items)
      ensures items[..] == Put(if p == null then [] else p[..], abiType, sd, 0)
    {
      var n := if p == null then 0 else p.Length;
      ghost var before := if p == null then [] else p[..];
      var i := 0;
      while i < n && p[i].abiType != abiType
        invariant 0 <= i <= n
        invariant Put(before, abiType, sd, 0) == Put(before, abiType, sd, i)
      {
        i := i + 1;
      }
      var size := if i < n then n else n + 1;
      items := new Item[size](_ => Item(abiType, sd));
      forall k | 0 <= k < n && k != i {
        items[k] := p[k];
      }
      assert items[..] == Put(before, abiType, sd, i);
      assert before == if p == null then [] else p[..];
    }
  }
}
