/**
  The set of field IDs that a decode has seen (internal/reflect/bitset.go): 65536 bits in
  1024 words. Sets come from a pool with the bits of their last user.
 */
module Bitsets {

  /** The mask of bit `y` of a word. */
  function Bit(y: nat): bv64
    requires y < 64
  {
    1 << y
  }

  predicate Overlap(w: bv64, m: bv64) {
    w & m != 0
  }

  function Union(w: bv64, m: bv64): bv64 {
    w | m
  }

  function Minus(w: bv64, m: bv64): bv64 {
    w & !m
  }

  predicate IsSet(w: bv64, y: nat)
    requires y < 64
  {
    Overlap(w, Bit(y))
  }

  lemma BitsDiffer(x: nat, y: nat)
    requires x < 64 && y < 64
    ensures Overlap(Bit(x), Bit(y)) <==> x == y
  {
  }

  lemma SameMask(w: bv64, m: bv64)
    requires Overlap(m, m)
    ensures Overlap(Union(w, m), m) && !Overlap(Minus(w, m), m)
  {
  }

  lemma Masked(w: bv64, m: bv64, k: bv64)
    ensures Union(w, m) & k == (w & k) | (m & k)
    ensures Minus(w, m) & k == (w & k) & !(m & k)
  {
  }

  lemma MaskedByNothing(x: bv64, n: bv64)
    requires n == 0
    ensures x | n == x && x & !n == x
  {
  }

  lemma OtherMask(w: bv64, m: bv64, k: bv64)
    requires !Overlap(m, k)
    ensures Overlap(Union(w, m), k) <==> Overlap(w, k)
    ensures Overlap(Minus(w, m), k) <==> Overlap(w, k)
  {
    hide Union, Minus;
    Masked(w, m, k);
    MaskedByNothing(w & k, m & k);
  }

  /** Setting or clearing one bit changes that bit and no other. */
  lemma OneBit(w: bv64, y: nat, z: nat)
    requires y < 64 && z < 64
    ensures IsSet(Union(w, Bit(y)), z) <==> z == y || IsSet(w, z)
    ensures IsSet(Minus(w, Bit(y)), z) <==> z != y && IsSet(w, z)
  {
    hide Bit, Overlap, Union, Minus;
    BitsDiffer(y, z);
    if y == z {
      SameMask(w, Bit(y));
    } else {
      OtherMask(w, Bit(y), Bit(z));
    }
  }

  class Bitset {
    const data: array<bv64>

    ghost predicate Valid() {
      data.Length == 1024
    }

    /** What the pool hands out: nothing is known about the bits. */
    constructor ()
      ensures Valid() && fresh(data)
    {
      data := new bv64[1024];
    }

    predicate Has(i: nat)
      requires Valid() && i < 0x1_0000
      reads data
    {
      IsSet(data[i / 64], i % 64)
    }

    method Set(i: nat)
      requires Valid() && i < 0x1_0000
      modifies data
      ensures forall k :: 0 <= k < 0x1_0000 ==> (Has(k) <==> k == i || old(Has(k)))
    {
      hide IsSet, Bit, Union;
      var x, y := i / 64, i % 64;
      data[x] := Union(data[x], Bit(y));
      forall k | 0 <= k < 0x1_0000 ensures Has(k) <==> k == i || old(Has(k)) {
        OneBit(old(data[x]), y, k % 64);
      }
    }

    method Unset(i: nat)
      requires Valid() && i < 0x1_0000
      modifies data
      ensures forall k :: 0 <= k < 0x1_0000 ==> (Has(k) <==> k != i && old(Has(k)))
    {
      hide IsSet, Bit, Minus;
      var x, y := i / 64, i % 64;
      data[x] := Minus(data[x], Bit(y));
      forall k | 0 <= k < 0x1_0000 ensures Has(k) <==> k != i && old(Has(k)) {
        OneBit(old(data[x]), y, k % 64);
      }
    }

    method Test(i: nat) returns (r: bool)
      requires Valid() && i < 0x1_0000
      ensures r == Has(i)
    {
      r := IsSet(data[i / 64], i % 64);
    }
  }
}
