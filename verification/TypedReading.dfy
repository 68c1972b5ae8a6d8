/**
  Whatever the reader accepts is a well-formed value of its type, so it can be encoded again.
 */
module TypedReading {
  import opened Common
  import opened BigEndian
  import opened Schema
  import opened Skip
  import opened Reference
  import opened Wire

  /** Every struct starts from well-formed defaults. */
  ghost predicate InitTyped(S: Schema, sd: StructDesc) {
    forall i :: 0 <= i < |sd.fields| ==> Typed(S, sd.fields[i].typ, sd.init[i])
  }

  ghost predicate SchemaTyped(S: Schema) {
    forall name :: name in S ==> InitTyped(S, S[name])
  }

  ghost predicate PartialTyped(S: Schema, sd: StructDesc, p: Partial) {
    && |p.fields| == |sd.fields|
    && (forall i :: 0 <= i < |p.fields| ==> Typed(S, sd.fields[i].typ, p.fields[i]))
    && ValidUnknown(sd, p.unknown)
    && (sd.hasUnknown || p.unknown == [])
  }

  lemma {:induction false} GetFixedTyped(S: Schema, t: Type, b: seq<Byte>)
    requires 0 < FixedSize(t) <= |b|
    ensures Typed(S, t, GetFixed(t, b))
    decreases t
  {
    hide Built, Get16, Get32, Get64;
    if t.TPtr? {
      GetFixedTyped(S, t.pointee, b);
    }
  }

  lemma {:induction false} ReadValueTyped(S: Schema, t: Type, b: seq<Byte>)
    requires SchemaTyped(S) && FieldType(t) && ReadValue(S, t, b).Some?
    ensures Typed(S, t, ReadValue(S, t, b).value.val)
    decreases |b|, 4, t
  {
    hide Built, ReadList, ReadMap, ReadNested, SchemaTyped;
    if FixedSize(t) > 0 {
      GetFixedTyped(S, t, b);
    } else {
      match t
      case TPtr(e) => ReadValueTyped(S, e, b);
      case TStruct(name) => ReadNestedTyped(S, name, b);
      case TMap(kt, vt) => ReadMapTyped(S, kt, vt, b);
      case TSet(e) => ReadListTyped(S, e, b);
      case TList(e) => ReadListTyped(S, e, b);
      case TString =>
      case TBinary =>
    }
  }

  lemma {:induction false} ReadListTyped(S: Schema, e: Type, b: seq<Byte>)
    requires SchemaTyped(S) && ElemType(e) && ReadList(S, e, b).Some?
    ensures var v := ReadList(S, e, b).value.val; v.List? && TypedList(S, e, v)
    decreases |b|, 3
  {
    hide Built, ReadElems, Typed, SchemaTyped, Get32;
    ReadElemsTyped(S, e, b[5..], Get32(b[1..]));
  }

  lemma {:induction false} ReadElemsTyped(S: Schema, e: Type, b: seq<Byte>, l: nat)
    requires SchemaTyped(S) && ElemType(e) && ReadElems(S, e, b, l).Some?
    ensures var es := ReadElems(S, e, b, l).value.val;
      |es| == l && forall i :: 0 <= i < |es| ==> Typed(S, e, es[i])
    decreases |b|, 5, l
  {
    hide Built, ReadValue, Typed, SchemaTyped;
    if l > 0 {
      ReadValueTyped(S, e, b);
      ReadElemsTyped(S, e, b[ReadValue(S, e, b).value.n..], l - 1);
    }
  }

  ghost predicate TypedEntry(S: Schema, kt: Type, vt: Type, e: Entry) {
    Typed(S, kt, e.key) && Typed(S, vt, e.val)
  }

  lemma {:induction false} ReadMapTyped(S: Schema, kt: Type, vt: Type, b: seq<Byte>)
    requires SchemaTyped(S) && ElemType(TMap(kt, vt)) && ReadMap(S, kt, vt, b).Some?
    ensures Typed(S, TMap(kt, vt), ReadMap(S, kt, vt, b).value.val)
    decreases |b|, 3
  {
    hide Built, ReadEntries, SchemaTyped, Get32, PutAll;
    var l := Get32(b[2..]);
    var es := ReadEntries(S, kt, vt, b[6..], l).value.val;
    ReadEntriesTyped(S, kt, vt, b[6..], l);
    PutAllTyped(S, kt, vt, [], es);
    var m := PutAll(kt, [], es);
    forall i | 0 <= i < |m| ensures Typed(S, kt, m[i].key) && Typed(S, vt, m[i].val) {
      assert TypedEntry(S, kt, vt, m[i]);
    }
  }

  lemma {:induction false} ReadEntriesTyped(S: Schema, kt: Type, vt: Type, b: seq<Byte>, l: nat)
    requires SchemaTyped(S) && ElemType(kt) && ElemType(vt) && ReadEntries(S, kt, vt, b, l).Some?
    ensures var es := ReadEntries(S, kt, vt, b, l).value.val;
      |es| == l && forall i :: 0 <= i < |es| ==> TypedEntry(S, kt, vt, es[i])
    decreases |b|, 6, l
  {
    hide Built, ReadEntry, TypedEntry, SchemaTyped;
    if l > 0 {
      ReadEntryTyped(S, kt, vt, b);
      ReadEntriesTyped(S, kt, vt, b[ReadEntry(S, kt, vt, b).value.n..], l - 1);
    }
  }

  lemma {:induction false} ReadEntryTyped(S: Schema, kt: Type, vt: Type, b: seq<Byte>)
    requires SchemaTyped(S) && ElemType(kt) && ElemType(vt) && ReadEntry(S, kt, vt, b).Some?
    ensures TypedEntry(S, kt, vt, ReadEntry(S, kt, vt, b).value.val)
    decreases |b|, 5, 0
  {
    hide Built, ReadValue, Typed, SchemaTyped, ElemType;
    ElemIsField(kt);
    ElemIsField(vt);
    ReadValueTyped(S, kt, b);
    ReadValueTyped(S, vt, b[ReadValue(S, kt, b).value.n..]);
  }

  lemma ElemIsField(t: Type)
    requires ElemType(t)
    ensures FieldType(t)
  {
  }

  lemma KeyEqMeets(kt: Type, a: Value, b: Value, c: Value)
    requires KeyEq(kt, a, c) && KeyEq(kt, b, c)
    ensures KeyEq(kt, a, b)
  {
  }

  /** A decoded map has no two equal keys, whatever the entries on the wire were. */
  lemma MapPutDistinct(kt: Type, m: seq<Entry>, e: Entry)
    requires DistinctKeys(kt, m)
    ensures DistinctKeys(kt, MapPut(kt, m, e))
  {
    hide Built, KeyEq;
    match FindKey(kt, m, e.key)
    case None =>
    case Some(k) =>
      var r := m[k := e];
      forall i, j | 0 <= i < j < |r| && (i == k || j == k) ensures !KeyEq(kt, r[i].key, r[j].key) {
        if i == k && KeyEq(kt, e.key, m[j].key) {
          KeyEqSymmetric(kt, e.key, m[j].key);
          KeyEqMeets(kt, m[i].key, m[j].key, e.key);
        }
        if j == k && KeyEq(kt, m[i].key, e.key) {
          KeyEqMeets(kt, m[i].key, m[j].key, e.key);
        }
      }
  }

  lemma KeyEqSymmetric(kt: Type, a: Value, b: Value)
    ensures KeyEq(kt, a, b) == KeyEq(kt, b, a)
  {
  }

  lemma {:induction false} PutAllTyped(S: Schema, kt: Type, vt: Type, m: seq<Entry>, es: seq<Entry>)
    requires DistinctKeys(kt, m)
    requires forall i :: 0 <= i < |m| ==> TypedEntry(S, kt, vt, m[i])
    requires forall i :: 0 <= i < |es| ==> TypedEntry(S, kt, vt, es[i])
    ensures var r := PutAll(kt, m, es);
      DistinctKeys(kt, r) && |r| <= |m| + |es| && forall i :: 0 <= i < |r| ==> TypedEntry(S, kt, vt, r[i])
    decreases |es|
  {
    hide Built, TypedEntry, DistinctKeys;
    if es != [] {
      MapPutDistinct(kt, m, es[0]);
      PutAllTyped(S, kt, vt, MapPut(kt, m, es[0]), es[1..]);
    }
  }

  // ----- Structs

  lemma {:induction false} ReadNestedTyped(S: Schema, name: Name, b: seq<Byte>)
    requires SchemaTyped(S) && ReadNested(S, name, b).Some?
    ensures Typed(S, TStruct(name), ReadNested(S, name, b).value.val)
    decreases |b|, 3
  {
    hide ReadStruct;
    assert InitTyped(S, S[name]);
    ReadStructTyped(S, S[name], b, Fresh(S[name]));
  }

  lemma {:induction false} ReadStructTyped(S: Schema, sd: StructDesc, b: seq<Byte>, target: Value)
    requires SchemaTyped(S) && TypedStruct(S, sd, target) && ReadStruct(S, sd, b, target).Some?
    ensures TypedStruct(S, sd, ReadStruct(S, sd, b, target).value.val)
    decreases |b|, 2
  {
    hide Built, ReadFields, ValidUnknown, SchemaTyped;
    var p := Partial(target.fields, [], {});
    assert ValidUnknown(sd, []) by { NoUnknown(sd); }
    ReadFieldsTyped(S, sd, b, p);
  }

  lemma NoUnknown(sd: StructDesc)
    ensures ValidUnknown(sd, [])
  {
  }

  lemma {:induction false} ReadFieldsTyped(S: Schema, sd: StructDesc, b: seq<Byte>, p: Partial)
    requires SchemaTyped(S) && PartialTyped(S, sd, p) && ReadFields(S, sd, b, p).Some?
    ensures PartialTyped(S, sd, ReadFields(S, sd, b, p).value.val)
    decreases |b|, 1
  {
    hide Built, ReadField, SchemaTyped;
    if b[0] != STOP {
      var h := ReadField(S, sd, b, p).value;
      ReadFieldTyped(S, sd, b, p);
      ReadFieldsTyped(S, sd, b[h.n..], h.val);
    }
  }

  lemma {:induction false} ReadFieldTyped(S: Schema, sd: StructDesc, b: seq<Byte>, p: Partial)
    requires SchemaTyped(S) && PartialTyped(S, sd, p) && b != [] && b[0] != STOP && ReadField(S, sd, b, p).Some?
    ensures PartialTyped(S, sd, ReadField(S, sd, b, p).value.val)
    decreases |b|, 0
  {
    hide Built, ReadFieldValue, SkipValue, KnownField, ValidUnknown, Typed, SchemaTyped;
    match KnownField(sd, b[0], Get16(b[1..]))
    case None =>
      var n := 3 + SkipValue(b[0], b[3..]).value;
      OneUnknown(sd, b, n);
      UnknownAppend(sd, p.unknown, b[..n]);
    case Some(i) => ReadFieldValueTyped(S, sd, i, b[3..]);
  }

  lemma {:induction false} ReadFieldValueTyped(S: Schema, sd: StructDesc, i: nat, b: seq<Byte>)
    requires SchemaTyped(S) && i < |sd.fields| && ReadFieldValue(S, sd.fields[i], b).Some?
    ensures Typed(S, sd.fields[i].typ, ReadFieldValue(S, sd.fields[i], b).value.val)
    decreases |b|, 5
  {
    hide ReadValue, SchemaTyped;
    assert ResolvedField(sd.fields[i]);
    if FixedSize(sd.fields[i].typ) > 0 || !sd.fields[i].noCopy {
      ReadValueTyped(S, sd.fields[i].typ, b);
    }
  }

  /** One skipped field is well-formed on its own. */
  lemma OneUnknown(sd: StructDesc, b: seq<Byte>, n: nat)
    requires |b| >= 3 && b[0] != STOP && KnownField(sd, b[0], Get16(b[1..])).None?
    requires SkipValue(b[0], b[3..]) == Some(n - 3)
    ensures ValidUnknown(sd, b[..n])
  {
    hide Built, SkipValue, KnownField;
    var c := b[..n];
    assert Agree(b, c, n);
    AgreeDrop(b, c, n, 3);
    SkipValueLocal(b[0], b[3..], c[3..], n - 3);
    assert c[n..] == [];
  }

  lemma {:induction false} UnknownAppend(sd: StructDesc, u: seq<Byte>, f: seq<Byte>)
    requires ValidUnknown(sd, u) && ValidUnknown(sd, f)
    ensures ValidUnknown(sd, u + f)
    decreases |u|
  {
    hide Built, SkipValue, KnownField;
    if u == [] {
      assert u + f == f;
    } else {
      var n := 3 + SkipValue(u[0], u[3..]).value;
      var c := u + f;
      assert Agree(u, c, |u|);
      AgreeDrop(u, c, |u|, 3);
      SkipValueLocal(u[0], u[3..], c[3..], |u| - 3);
      UnknownAppend(sd, u[n..], f);
      assert c[n..] == u[n..] + f;
    }
  }
}
