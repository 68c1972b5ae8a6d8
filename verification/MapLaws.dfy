/**
  What a decoded map holds (tDecoder.decodeType, internal/reflect/decoder.go): of the entries
  on the wire, each one that no later entry with an equal key replaces, and nothing else.
  Equality of keys is Go's, so that NaN keys and struct pointers replace nothing.
 */
module MapLaws {
  import opened Common
  import opened BigEndian
  import opened Schema
  import opened Reference
  import opened TypedReading
  import opened Decoding
  import opened DepthBudget

  // ----- Equality of float64 keys, by ranges of bit patterns

  const INF: nat := 0x7FF0_0000_0000_0000
  const SIGN: nat := 0x8000_0000_0000_0000

  /** Beyond infinity, with either sign. */
  predicate BeyondInf(bits: nat) {
    INF < bits < SIGN || SIGN + INF < bits
  }

  /** Two patterns are equal if they are the same number, which NaN is not; the zeros are equal. */
  lemma FloatEquality(a: nat, b: nat)
    requires a < TWO_64 && b < TWO_64
    ensures FloatEq(a, b) <==> (a == b && !BeyondInf(a)) || (a in {0, SIGN} && b in {0, SIGN})
  {
    NaNRange(a);
    NaNRange(b);
  }

  lemma NaNRange(a: nat)
    requires a < TWO_64
    ensures IsNaN(a) <==> BeyondInf(a)
    ensures IsZero(a) <==> a in {0, SIGN}
  {
  }

  /** Keys that are equal to nothing at all: NaN, and pointers to structs. */
  predicate EqualsNothing(kt: Type, k: Value) {
    match kt
    case TDouble => !k.Fixed? || BeyondInf(k.bits)
    case TStruct(_) => !k.Nil?
    case _ => false
  }

  lemma KeyEquality(kt: Type, a: Value, b: Value)
    requires a.Fixed? && kt.TDouble? ==> a.bits < TWO_64
    ensures KeyEq(kt, a, a) <==> !EqualsNothing(kt, a)
    ensures !kt.TDouble? ==> (KeyEq(kt, a, b) <==> a == b && !EqualsNothing(kt, a))
  {
    if kt.TDouble? && a.Fixed? {
      FloatEquality(a.bits, a.bits);
    }
  }

  // ----- The entries that stay

  predicate Replaced(kt: Type, es: seq<Entry>, k: Value) {
    exists j :: 0 <= j < |es| && KeyEq(kt, k, es[j].key)
  }

  /** Those entries that no later one replaces. */
  function Lasting(kt: Type, es: seq<Entry>): seq<Entry> {
    if es == [] then []
    else (if Replaced(kt, es[1..], es[0].key) then [] else [es[0]]) + Lasting(kt, es[1..])
  }

  /** Those entries of `m` that no entry of `es` replaces. */
  function Staying(kt: Type, m: seq<Entry>, es: seq<Entry>): seq<Entry> {
    if m == [] then []
    else
      var n := |m| - 1;
      Staying(kt, m[..n], es) + (if Replaced(kt, es, m[n].key) then [] else [m[n]])
  }

  lemma ReplacedByMore(kt: Type, e: Entry, es: seq<Entry>, k: Value)
    ensures Replaced(kt, [e] + es, k) <==> KeyEq(kt, k, e.key) || Replaced(kt, es, k)
  {
    hide KeyEq;
    var all := [e] + es;
    assert all[0] == e;
    assert forall j :: 0 <= j < |es| ==> all[j + 1] == es[j];
    if Replaced(kt, es, k) {
      var j :| 0 <= j < |es| && KeyEq(kt, k, es[j].key);
      assert KeyEq(kt, k, all[j + 1].key);
    }
    if Replaced(kt, all, k) && !KeyEq(kt, k, e.key) {
      var j :| 0 <= j < |all| && KeyEq(kt, k, all[j].key);
      assert KeyEq(kt, k, es[j - 1].key);
    }
  }

  /** One more entry without an equal key in the map replaces nothing. */
  lemma {:induction false} StayingNew(kt: Type, m: seq<Entry>, e: Entry, es: seq<Entry>)
    requires forall i :: 0 <= i < |m| ==> !KeyEq(kt, m[i].key, e.key)
    ensures Staying(kt, m, [e] + es) == Staying(kt, m, es)
    decreases |m|
  {
    hide KeyEq, Replaced;
    if m != [] {
      StayingNew(kt, m[..|m| - 1], e, es);
      ReplacedByMore(kt, e, es, m[|m| - 1].key);
    }
  }

  lemma {:induction false} StayingParts(kt: Type, m: seq<Entry>, n: seq<Entry>, es: seq<Entry>)
    ensures Staying(kt, m + n, es) == Staying(kt, m, es) + Staying(kt, n, es)
    decreases |n|
  {
    hide Replaced;
    if n == [] {
      assert m + n == m;
    } else {
      var l := |n| - 1;
      assert (m + n)[..|m + n| - 1] == m + n[..l];
      StayingParts(kt, m, n[..l], es);
    }
  }

  lemma StayingOne(kt: Type, e: Entry, es: seq<Entry>)
    ensures Staying(kt, [e], es) == if Replaced(kt, es, e.key) then [] else [e]
  {
    hide Replaced;
    assert Staying(kt, [e][..0], es) == [];
  }

  /** The entry at `i`, the only one with an equal key, is replaced by `e`. */
  lemma StayingUpdated(kt: Type, m: seq<Entry>, i: nat, e: Entry, es: seq<Entry>)
    requires i < |m| && KeyEq(kt, m[i].key, e.key)
    requires forall k :: 0 <= k < |m| && k != i ==> !KeyEq(kt, m[k].key, e.key)
    ensures multiset(Staying(kt, m[i := e], es))
      == multiset(Staying(kt, m, [e] + es)) + multiset(if Replaced(kt, es, e.key) then [] else [e])
  {
    hide KeyEq, Replaced, Staying;
    var a, b := m[..i], m[i + 1..];
    assert m == a + ([m[i]] + b) && m[i := e] == a + ([e] + b);
    StayingParts(kt, a, [m[i]] + b, [e] + es);
    StayingParts(kt, [m[i]], b, [e] + es);
    StayingParts(kt, a, [e] + b, es);
    StayingParts(kt, [e], b, es);
    StayingNew(kt, a, e, es);
    StayingNew(kt, b, e, es);
    StayingOne(kt, e, es);
    StayingOne(kt, m[i], [e] + es);
    ReplacedByMore(kt, e, es, m[i].key);
  }

  lemma OnlyOne(kt: Type, m: seq<Entry>, i: nat, k: Value)
    requires DistinctKeys(kt, m) && i < |m| && KeyEq(kt, m[i].key, k)
    ensures forall j :: 0 <= j < |m| && j != i ==> !KeyEq(kt, m[j].key, k)
  {
    hide KeyEq;
    forall j | 0 <= j < |m| && j != i ensures !KeyEq(kt, m[j].key, k) {
      if KeyEq(kt, m[j].key, k) {
        KeyEqMeets(kt, m[i].key, m[j].key, k);
        KeyEqSymmetric(kt, m[i].key, m[j].key);
      }
    }
  }

  lemma MapPutStaying(kt: Type, m: seq<Entry>, e: Entry, es: seq<Entry>)
    requires DistinctKeys(kt, m)
    ensures multiset(Staying(kt, MapPut(kt, m, e), es))
      == multiset(Staying(kt, m, [e] + es)) + multiset(if Replaced(kt, es, e.key) then [] else [e])
  {
    hide KeyEq, Replaced, Staying;
    match FindKey(kt, m, e.key)
    case Some(i) =>
      OnlyOne(kt, m, i, e.key);
      StayingUpdated(kt, m, i, e, es);
    case None =>
      StayingNew(kt, m, e, es);
      StayingParts(kt, m, [e], es);
      StayingOne(kt, e, es);
  }

  lemma {:induction false} StayingAll(kt: Type, m: seq<Entry>)
    ensures Staying(kt, m, []) == m
    decreases |m|
  {
    hide KeyEq;
    if m != [] {
      StayingAll(kt, m[..|m| - 1]);
    }
  }

  lemma {:induction false} PutAllLasts(kt: Type, m: seq<Entry>, es: seq<Entry>)
    requires DistinctKeys(kt, m)
    ensures multiset(PutAll(kt, m, es)) == multiset(Staying(kt, m, es)) + multiset(Lasting(kt, es))
    decreases |es|
  {
    hide KeyEq, Replaced, Staying, MapPut, DistinctKeys;
    if es == [] {
      StayingAll(kt, m);
    } else {
      MapPutDistinct(kt, m, es[0]);
      PutAllLasts(kt, MapPut(kt, m, es[0]), es[1..]);
      MapPutStaying(kt, m, es[0], es[1..]);
      assert [es[0]] + es[1..] == es;
    }
  }

  // ----- Single entries

  lemma {:induction false} LastingHas(kt: Type, es: seq<Entry>, e: Entry)
    ensures e in Lasting(kt, es) <==>
      exists j :: 0 <= j < |es| && es[j] == e && !Replaced(kt, es[j + 1..], es[j].key)
    decreases |es|
  {
    hide KeyEq, Replaced;
    if es != [] {
      LastingHas(kt, es[1..], e);
      assert forall j :: 0 <= j < |es| - 1 ==> es[1..][j] == es[j + 1] && es[1..][j + 1..] == es[j + 2..];
      if j :| 0 <= j < |es| - 1 && es[1..][j] == e && !Replaced(kt, es[1..][j + 1..], es[1..][j].key) {
        assert es[j + 1] == e && !Replaced(kt, es[j + 1 + 1..], es[j + 1].key);
      }
      if j :| 0 <= j < |es| && es[j] == e && !Replaced(kt, es[j + 1..], es[j].key) {
        if j > 0 {
          assert es[1..][j - 1] == e && !Replaced(kt, es[1..][j - 1 + 1..], es[1..][j - 1].key);
        }
      }
    }
  }

  /** What is on the wire at `j` is still in the map, and no other entry has an equal key. */
  ghost predicate HoldsAlone(kt: Type, m: seq<Entry>, e: Entry) {
    exists i :: 0 <= i < |m| && m[i] == e && forall k :: 0 <= k < |m| && k != i ==> !KeyEq(kt, m[k].key, e.key)
  }

  lemma InMultiset(a: seq<Entry>, b: seq<Entry>, e: Entry)
    requires multiset(a) == multiset(b)
    ensures e in a <==> e in b
  {
    assert e in multiset(a) <==> e in multiset(b);
  }

  lemma AloneByDistinct(kt: Type, m: seq<Entry>, e: Entry)
    requires DistinctKeys(kt, m) && e in m && KeyEq(kt, e.key, e.key)
    ensures HoldsAlone(kt, m, e)
  {
    hide KeyEq;
    var i :| 0 <= i < |m| && m[i] == e;
    OnlyOne(kt, m, i, e.key);
  }

  /**
    The map made of `es`: its entries are the lasting ones. The last entry on the wire with a
    given key wins, and every entry of the map stood on the wire.
   */
  ghost predicate IsMapOf(kt: Type, m: seq<Entry>, es: seq<Entry>) {
    && multiset(m) == multiset(Lasting(kt, es))
    && (forall j :: 0 <= j < |es| && !Replaced(kt, es[j + 1..], es[j].key) ==> es[j] in m)
    && (forall j :: 0 <= j < |es| && !Replaced(kt, es[j + 1..], es[j].key) && !EqualsNothing(kt, es[j].key) ==>
          HoldsAlone(kt, m, es[j]))
    && (forall i :: 0 <= i < |m| ==> m[i] in es)
  }

  ghost predicate FloatsInRange(kt: Type, es: seq<Entry>) {
    forall j :: 0 <= j < |es| && kt.TDouble? && es[j].key.Fixed? ==> es[j].key.bits < TWO_64
  }

  lemma PutAllIsMapOf(kt: Type, es: seq<Entry>)
    requires FloatsInRange(kt, es)
    ensures IsMapOf(kt, PutAll(kt, [], es), es)
  {
    hide KeyEq, Replaced, PutAll, EqualsNothing, Lasting, HoldsAlone;
    var m := PutAll(kt, [], es);
    PutAllLasts(kt, [], es);
    PutAllKeepsDistinct(kt, [], es);
    forall j | 0 <= j < |es| && !Replaced(kt, es[j + 1..], es[j].key)
      ensures es[j] in m && (!EqualsNothing(kt, es[j].key) ==> HoldsAlone(kt, m, es[j]))
    {
      LastingHas(kt, es, es[j]);
      InMultiset(m, Lasting(kt, es), es[j]);
      if !EqualsNothing(kt, es[j].key) {
        KeyEquality(kt, es[j].key, es[j].key);
        AloneByDistinct(kt, m, es[j]);
      }
    }
    forall i | 0 <= i < |m| ensures m[i] in es {
      InMultiset(m, Lasting(kt, es), m[i]);
      LastingHas(kt, es, m[i]);
    }
  }

  lemma {:induction false} PutAllKeepsDistinct(kt: Type, m: seq<Entry>, es: seq<Entry>)
    requires DistinctKeys(kt, m)
    ensures DistinctKeys(kt, PutAll(kt, m, es))
    decreases |es|
  {
    hide MapPut, DistinctKeys;
    if es != [] {
      MapPutDistinct(kt, m, es[0]);
      PutAllKeepsDistinct(kt, MapPut(kt, m, es[0]), es[1..]);
    }
  }

  // ----- The reader and the decoder

  lemma {:induction false} ReadsFloats(S: Schema, kt: Type, vt: Type, b: seq<Byte>, l: nat)
    requires ReadEntries(S, kt, vt, b, l).Some?
    ensures FloatsInRange(kt, ReadEntries(S, kt, vt, b, l).value.val)
    decreases l
  {
    hide ReadValue, Built;
    if l > 0 {
      var h := ReadEntry(S, kt, vt, b).value;
      ReadsFloats(S, kt, vt, b[h.n..], l - 1);
      if kt.TDouble? {
        DoubleInRange(S, b);
      }
    }
  }

  lemma DoubleInRange(S: Schema, b: seq<Byte>)
    requires ReadValue(S, TDouble, b).Some?
    ensures var v := ReadValue(S, TDouble, b).value.val; v.Fixed? && v.bits < TWO_64
  {
    hide Get64;
  }

  /** The entries that stand behind the header of a map, in their order. */
  function WireEntries(S: Schema, kt: Type, vt: Type, b: seq<Byte>): Option<Read<seq<Entry>>>
    requires |b| >= 6
  {
    ReadEntries(S, kt, vt, b[6..], Get32(b[2..]))
  }

  /** An accepted map holds, of the entries on the wire, the last one for each key. */
  lemma LastEntryWins(S: Schema, kt: Type, vt: Type, b: seq<Byte>, depth: nat)
    requires depth > 0 && DecodeMap(S, kt, vt, b, depth).Ok?
    ensures var v := DecodeMap(S, kt, vt, b, depth).val;
      && |b| >= 6 && v.Map? && WireEntries(S, kt, vt, b).Some?
      && IsMapOf(kt, v.entries, WireEntries(S, kt, vt, b).value.val)
  {
    hide DecodeMap, ReadEntries, PutAll, IsMapOf, FloatsInRange, Get32, Built;
    MapMeets(S, kt, vt, b, depth);
    ReadsFloats(S, kt, vt, b[6..], Get32(b[2..]));
    PutAllIsMapOf(kt, WireEntries(S, kt, vt, b).value.val);
  }
}
