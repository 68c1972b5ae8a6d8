/**
  A hop through a service with an older schema. Both schemas read the same message side by
  side, nested structs included; what the old one encodes again is then read with the new one.
 */
module EvolvedHop {
  import opened Common
  import opened BigEndian
  import opened Schema
  import opened Skip
  import opened Reference
  import opened SelfDelimiting
  import opened Wire
  import opened ReadingBack
  import opened TypedReading
  import opened Passthrough
  import opened Decoding
  import opened Codec
  import opened Evolution

  /** The old schema reads what the new one has read as `w`, and what it reads is related to it. */
  ghost predicate Returned(R: Schema, S: Schema, t: Type, r: Option<Read<Value>>, w: Read<Value>) {
    && r.Some? && r.value.n == w.n && r.value.cost <= w.cost
    && Related(R, S, t, r.value.val, w.val, w.cost)
  }

  // ----- Values

  lemma {:induction false} SimpleReads(R: Schema, S: Schema, t: Type, b: seq<Byte>)
    requires Simple(t) && FieldType(t)
    ensures ReadValue(R, t, b) == ReadValue(S, t, b)
    ensures var r := ReadValue(S, t, b); r.Some? ==> Flat(r.value.val) && !r.value.val.Nil?
    decreases t
  {
    hide ReadString, Built;
    if t.TPtr? {
      SimpleReads(R, S, t.pointee, b);
    } else if FixedSize(t) == 0 {
      StringIsBytes(b);
    } else if |b| >= FixedSize(t) {
      assert GetFixed(t, b).Fixed?;
    }
  }

  lemma StringIsBytes(b: seq<Byte>)
    ensures var r := ReadString(b, 1); r.Some? ==> r.value.val.Bytes?
  {
  }

  lemma {:induction false} ValueReturns(R: Schema, S: Schema, t: Type, b: seq<Byte>)
    requires Evolved(R, S) && NamesIn(R, t) && FieldType(t) && ReadValue(S, t, b).Some?
    ensures Returned(R, S, t, ReadValue(R, t, b), ReadValue(S, t, b).value)
    decreases |b|, 4, t
  {
    hide ReadValue, Evolved, Typed, Flat, Returned, Built;
    if Simple(t) {
      SimpleReturns(R, S, t, b);
    } else {
      NestedSteps(R, t, b);
      NestedSteps(S, t, b);
      match t
      case TStruct(name) => StructReturns(R, S, name, b);
      case TMap(kt, vt) => MapReturns(R, S, kt, vt, b);
      case TSet(e) => ListReturns(R, S, t, e, b);
      case TList(e) => ListReturns(R, S, t, e, b);
    }
  }

  lemma NestedSteps(S: Schema, t: Type, b: seq<Byte>)
    ensures t.TStruct? ==> ReadValue(S, t, b) == ReadNested(S, t.name, b)
    ensures t.TMap? ==> ReadValue(S, t, b) == ReadMap(S, t.key, t.val, b)
    ensures t.TSet? || t.TList? ==> ReadValue(S, t, b) == ReadList(S, t.elem, b)
  {
    hide ReadNested, ReadMap, ReadList;
  }

  lemma SimpleReturns(R: Schema, S: Schema, t: Type, b: seq<Byte>)
    requires Evolved(R, S) && Simple(t) && FieldType(t) && ReadValue(S, t, b).Some?
    ensures Returned(R, S, t, ReadValue(R, t, b), ReadValue(S, t, b).value)
  {
    hide ReadValue, EncodeValue, Typed, Flat, BackBefore, Built;
    SimpleReads(R, S, t, b);
    ReadValueTyped(S, t, b);
    var w := ReadValue(S, t, b).value;
    forall s ensures BackBefore(R, S, t, w.val, w.val, w.cost, s) {
      FlatBack(R, S, t, w.val, w.cost, s);
    }
  }

  // ----- Lists

  ghost predicate RelatedElems(R: Schema, S: Schema, e: Type, u: seq<Value>, w: seq<Value>, hi: nat) {
    |u| == |w| && forall i :: 0 <= i < |w| ==> Related(R, S, e, u[i], w[i], hi)
  }

  lemma {:induction false} ListReturns(R: Schema, S: Schema, t: Type, e: Type, b: seq<Byte>)
    requires Evolved(R, S) && NamesIn(R, e) && ElemType(e) && (t == TSet(e) || t == TList(e))
    requires ReadList(S, e, b).Some?
    ensures Returned(R, S, t, ReadList(R, e, b), ReadList(S, e, b).value)
    decreases |b|, 2
  {
    hide ReadElems, RelatedElems, Related, Evolved, Built;
    var l := Get32(b[1..]);
    ElemsReturn(R, S, e, b[5..], l);
    var us, ws := ReadElems(R, e, b[5..], l).value, ReadElems(S, e, b[5..], l).value;
    ListRelated(R, S, t, e, us.val, ws.val, ws.cost);
  }

  lemma ListRelated(R: Schema, S: Schema, t: Type, e: Type, us: seq<Value>, ws: seq<Value>, hi: nat)
    requires (t == TSet(e) || t == TList(e)) && RelatedElems(R, S, e, us, ws, hi) && |ws| < TWO_31
    ensures Related(R, S, t, List(us), List(ws), 1 + hi)
  {
    hide ReadList, EncodeList, Back, Related, CanonicalElems, ElemsCost, Built;
    var u, w, more := List(us), List(ws), 1 + hi;
    forall s ensures BackBefore(R, S, t, u, w, more, s) {
      ListBack(R, S, e, u, w, hi, s);
    }
    FromBack(R, S, t, u, w, more);
  }

  lemma FromBack(R: Schema, S: Schema, t: Type, u: Value, w: Value, hi: nat)
    requires Alike(t, u, w) && forall s :: BackBefore(R, S, t, u, w, hi, s)
    ensures Related(R, S, t, u, w, hi)
  {
    hide BackBefore, Alike;
  }

  lemma {:induction false} ElemsReturn(R: Schema, S: Schema, e: Type, b: seq<Byte>, l: nat)
    requires Evolved(R, S) && NamesIn(R, e) && ElemType(e) && ReadElems(S, e, b, l).Some?
    ensures var r := ReadElems(R, e, b, l);
      var w := ReadElems(S, e, b, l).value;
      && r.Some? && r.value.n == w.n && r.value.cost <= w.cost && |w.val| == l
      && RelatedElems(R, S, e, r.value.val, w.val, w.cost)
    decreases |b|, 5, l
  {
    hide ReadValue, Evolved, Related, Built;
    if l > 0 {
      ElemIsField(e);
      ValueReturns(R, S, e, b);
      var u, w := ReadValue(R, e, b).value, ReadValue(S, e, b).value;
      ElemsReturn(R, S, e, b[w.n..], l - 1);
      var us, ws := ReadElems(R, e, b[w.n..], l - 1).value, ReadElems(S, e, b[w.n..], l - 1).value;
      ConsRelated(R, S, e, u.val, w.val, w.cost, us.val, ws.val, ws.cost);
    }
  }

  lemma ConsRelated(R: Schema, S: Schema, e: Type, u: Value, w: Value, c: nat, us: seq<Value>, ws: seq<Value>, d: nat)
    requires Related(R, S, e, u, w, c) && RelatedElems(R, S, e, us, ws, d)
    ensures RelatedElems(R, S, e, [u] + us, [w] + ws, Max(c, d))
  {
    hide Related;
    RelatedMore(R, S, e, u, w, c, Max(c, d));
    forall i | 0 <= i < |ws| ensures Related(R, S, e, us[i], ws[i], Max(c, d)) {
      RelatedMore(R, S, e, us[i], ws[i], d, Max(c, d));
    }
  }

  // ----- Maps

  /** Keys that the two schemas read are equal to each other on both sides or on neither. */
  lemma SameKeys(kt: Type, u1: Value, w1: Value, u2: Value, w2: Value)
    requires IsKeyType(kt) && Alike(kt, u1, w1) && Alike(kt, u2, w2)
    ensures KeyEq(kt, u1, u2) <==> KeyEq(kt, w1, w2)
  {
  }

  ghost predicate AlikeKeys(kt: Type, us: seq<Entry>, ws: seq<Entry>) {
    |us| == |ws| && forall i :: 0 <= i < |us| ==> Alike(kt, us[i].key, ws[i].key)
  }

  lemma {:induction false} SameFound(kt: Type, us: seq<Entry>, ws: seq<Entry>, k: Value, l: Value)
    requires IsKeyType(kt) && AlikeKeys(kt, us, ws) && Alike(kt, k, l)
    ensures FindKey(kt, us, k) == FindKey(kt, ws, l)
    decreases |us|
  {
    hide KeyEq, Alike;
    if us != [] {
      var n := |us| - 1;
      SameKeys(kt, us[n].key, ws[n].key, k, l);
      SameFound(kt, us[..n], ws[..n], k, l);
    }
  }

  ghost predicate EntriesAlike(R: Schema, S: Schema, kt: Type, vt: Type, us: seq<Entry>, ws: seq<Entry>, hi: nat) {
    |us| == |ws| && forall i :: 0 <= i < |ws| ==> RelatedEntry(R, S, kt, vt, us[i], ws[i], hi)
  }

  lemma EntryKeys(R: Schema, S: Schema, kt: Type, vt: Type, u: Entry, w: Entry, hi: nat)
    requires RelatedEntry(R, S, kt, vt, u, w, hi)
    ensures Alike(kt, u.key, w.key)
  {
  }

  lemma PutRelated(R: Schema, S: Schema, kt: Type, vt: Type, us: seq<Entry>, ws: seq<Entry>, u: Entry, w: Entry,
                   hi: nat)
    requires IsKeyType(kt) && EntriesAlike(R, S, kt, vt, us, ws, hi) && RelatedEntry(R, S, kt, vt, u, w, hi)
    ensures EntriesAlike(R, S, kt, vt, MapPut(kt, us, u), MapPut(kt, ws, w), hi)
  {
    hide RelatedEntry, FindKey, Alike;
    forall i | 0 <= i < |us| ensures Alike(kt, us[i].key, ws[i].key) {
      EntryKeys(R, S, kt, vt, us[i], ws[i], hi);
    }
    EntryKeys(R, S, kt, vt, u, w, hi);
    SameFound(kt, us, ws, u.key, w.key);
  }

  lemma {:induction false} PutAllRelated(R: Schema, S: Schema, kt: Type, vt: Type, us: seq<Entry>, ws: seq<Entry>,
                                         es: seq<Entry>, fs: seq<Entry>, hi: nat)
    requires IsKeyType(kt) && EntriesAlike(R, S, kt, vt, us, ws, hi) && EntriesAlike(R, S, kt, vt, es, fs, hi)
    ensures EntriesAlike(R, S, kt, vt, PutAll(kt, us, es), PutAll(kt, ws, fs), hi)
    decreases |es|
  {
    hide RelatedEntry, MapPut;
    if es != [] {
      PutRelated(R, S, kt, vt, us, ws, es[0], fs[0], hi);
      PutAllRelated(R, S, kt, vt, MapPut(kt, us, es[0]), MapPut(kt, ws, fs[0]), es[1..], fs[1..], hi);
    }
  }

  lemma {:induction false} MapReturns(R: Schema, S: Schema, kt: Type, vt: Type, b: seq<Byte>)
    requires Evolved(R, S) && NamesIn(R, TMap(kt, vt)) && ElemType(TMap(kt, vt)) && ReadMap(S, kt, vt, b).Some?
    ensures Returned(R, S, TMap(kt, vt), ReadMap(R, kt, vt, b), ReadMap(S, kt, vt, b).value)
    decreases |b|, 3
  {
    hide ReadEntries, EntriesAlike, Related, Evolved, PutAll, Built;
    var l := Get32(b[2..]);
    EntriesReturn(R, S, kt, vt, b[6..], l);
    var es, fs := ReadEntries(R, kt, vt, b[6..], l).value, ReadEntries(S, kt, vt, b[6..], l).value;
    NoEntriesAlike(R, S, kt, vt, fs.cost);
    PutAllRelated(R, S, kt, vt, [], [], es.val, fs.val, fs.cost);
    MapTyped(R, S, kt, vt, b);
    MapRelated(R, S, kt, vt, PutAll(kt, [], es.val), PutAll(kt, [], fs.val), fs.cost);
  }

  lemma NoEntriesAlike(R: Schema, S: Schema, kt: Type, vt: Type, hi: nat)
    ensures EntriesAlike(R, S, kt, vt, [], [], hi)
  {
  }

  lemma MapTyped(R: Schema, S: Schema, kt: Type, vt: Type, b: seq<Byte>)
    requires Evolved(R, S) && ElemType(TMap(kt, vt)) && ReadMap(S, kt, vt, b).Some?
    ensures var m := ReadMap(S, kt, vt, b).value.val;
      m.Map? && |m.entries| < TWO_31 && DistinctKeys(kt, m.entries)
  {
    hide ReadMap, DistinctKeys, Built;
    MapIsMap(S, kt, vt, b);
    ReadMapTyped(S, kt, vt, b);
  }

  lemma MapIsMap(S: Schema, kt: Type, vt: Type, b: seq<Byte>)
    requires ReadMap(S, kt, vt, b).Some?
    ensures ReadMap(S, kt, vt, b).value.val.Map?
  {
    hide ReadEntries, PutAll, Built;
  }

  lemma MapRelated(R: Schema, S: Schema, kt: Type, vt: Type, us: seq<Entry>, ws: seq<Entry>, hi: nat)
    requires EntriesAlike(R, S, kt, vt, us, ws, hi) && |ws| < TWO_31 && DistinctKeys(kt, ws)
    ensures Related(R, S, TMap(kt, vt), Map(us), Map(ws), 1 + hi)
  {
    hide ReadMap, EncodeMap, Back, Related, RelatedEntry, CanonicalEntries, EntriesCost, DistinctKeys, Built;
    var t, u, w, more := TMap(kt, vt), Map(us), Map(ws), 1 + hi;
    forall s ensures BackBefore(R, S, t, u, w, more, s) {
      MapBack(R, S, kt, vt, u, w, hi, s);
    }
    FromBack(R, S, t, u, w, more);
  }

  lemma {:induction false} EntryReturns(R: Schema, S: Schema, kt: Type, vt: Type, b: seq<Byte>)
    requires Evolved(R, S) && NamesIn(R, TMap(kt, vt)) && ElemType(TMap(kt, vt)) && ReadEntry(S, kt, vt, b).Some?
    ensures var r := ReadEntry(R, kt, vt, b);
      var w := ReadEntry(S, kt, vt, b).value;
      && r.Some? && r.value.n == w.n && r.value.cost <= w.cost
      && RelatedEntry(R, S, kt, vt, r.value.val, w.val, w.cost)
    decreases |b|, 5, 0
  {
    hide ReadValue, Evolved, Related, Built;
    ElemIsField(kt);
    ElemIsField(vt);
    ValueReturns(R, S, kt, b);
    var k, l := ReadValue(R, kt, b).value, ReadValue(S, kt, b).value;
    ValueReturns(R, S, vt, b[l.n..]);
    var u, w := ReadValue(R, vt, b[l.n..]).value, ReadValue(S, vt, b[l.n..]).value;
    RelatedMore(R, S, kt, k.val, l.val, l.cost, Max(l.cost, w.cost));
    RelatedMore(R, S, vt, u.val, w.val, w.cost, Max(l.cost, w.cost));
  }

  lemma {:induction false} EntriesReturn(R: Schema, S: Schema, kt: Type, vt: Type, b: seq<Byte>, l: nat)
    requires Evolved(R, S) && NamesIn(R, TMap(kt, vt)) && ElemType(TMap(kt, vt)) && ReadEntries(S, kt, vt, b, l).Some?
    ensures var r := ReadEntries(R, kt, vt, b, l);
      var w := ReadEntries(S, kt, vt, b, l).value;
      && r.Some? && r.value.n == w.n && r.value.cost <= w.cost
      && EntriesAlike(R, S, kt, vt, r.value.val, w.val, w.cost)
    decreases |b|, 6, l
  {
    hide ReadEntry, Evolved, RelatedEntry, Built;
    if l > 0 {
      EntryReturns(R, S, kt, vt, b);
      var u, w := ReadEntry(R, kt, vt, b).value, ReadEntry(S, kt, vt, b).value;
      EntriesReturn(R, S, kt, vt, b[w.n..], l - 1);
      var us, ws := ReadEntries(R, kt, vt, b[w.n..], l - 1).value, ReadEntries(S, kt, vt, b[w.n..], l - 1).value;
      MoreEntries(R, S, kt, vt, u.val, w.val, w.cost, us.val, ws.val, ws.cost);
    }
  }

  lemma MoreEntries(R: Schema, S: Schema, kt: Type, vt: Type, u: Entry, w: Entry, c: nat, us: seq<Entry>,
                    ws: seq<Entry>, d: nat)
    requires RelatedEntry(R, S, kt, vt, u, w, c) && EntriesAlike(R, S, kt, vt, us, ws, d)
    ensures EntriesAlike(R, S, kt, vt, [u] + us, [w] + ws, Max(c, d))
  {
    hide RelatedEntry;
    EntryMore(R, S, kt, vt, u, w, c, Max(c, d));
    forall i | 0 <= i < |ws| ensures RelatedEntry(R, S, kt, vt, us[i], ws[i], Max(c, d)) {
      EntryMore(R, S, kt, vt, us[i], ws[i], d, Max(c, d));
    }
  }

  lemma EntryMore(R: Schema, S: Schema, kt: Type, vt: Type, u: Entry, w: Entry, c: nat, d: nat)
    requires RelatedEntry(R, S, kt, vt, u, w, c) && c <= d
    ensures RelatedEntry(R, S, kt, vt, u, w, d)
  {
    hide Related;
    RelatedMore(R, S, kt, u.key, w.key, c, d);
    RelatedMore(R, S, vt, u.val, w.val, c, d);
  }

  // ----- Structs

  lemma RelatedIsField(R: Schema, S: Schema, known: StructDesc, j: nat, u: Value, w: Value, hi: nat)
    requires j < |known.fields| && !known.fields[j].noCopy && Related(R, S, known.fields[j].typ, u, w, hi)
    ensures RelatedField(R, S, known, j, u, w, hi)
  {
    hide ReadValue, EncodeValue, Canonical, Cost, Back, Alike, Skipped, Built;
    var f := known.fields[j];
    forall s ensures FieldBackBefore(R, S, f, u, w, hi, s) {
      assert BackBefore(R, S, f.typ, u, w, hi, s);
    }
  }

  lemma {:induction false} FieldValueReturns(R: Schema, S: Schema, known: StructDesc, j: nat, b: seq<Byte>)
    requires Evolved(R, S) && DescNamesIn(R, known) && j < |known.fields|
    requires ReadFieldValue(S, known.fields[j], b).Some?
    ensures var r := ReadFieldValue(R, known.fields[j], b);
      var w := ReadFieldValue(S, known.fields[j], b).value;
      && r.Some? && r.value.n == w.n && r.value.cost <= w.cost
      && RelatedField(R, S, known, j, r.value.val, w.val, w.cost)
    decreases |b|, 5
  {
    var f := known.fields[j];
    assert ResolvedField(f);
    if f.noCopy {
      NoCopyReturns(R, S, known, j, b);
    } else {
      hide Evolved, Built, ReadValue, Related, RelatedField;
      ValueReturns(R, S, f.typ, b);
      RelatedIsField(R, S, known, j, ReadValue(R, f.typ, b).value.val, ReadValue(S, f.typ, b).value.val,
                     ReadValue(S, f.typ, b).value.cost);
    }
  }

  lemma NoCopyReturns(R: Schema, S: Schema, known: StructDesc, j: nat, b: seq<Byte>)
    requires Evolved(R, S) && j < |known.fields| && known.fields[j].noCopy
    requires ReadFieldValue(S, known.fields[j], b).Some?
    ensures var w := ReadFieldValue(S, known.fields[j], b).value;
      && ReadFieldValue(R, known.fields[j], b) == Some(w)
      && RelatedField(R, S, known, j, w.val, w.val, w.cost)
  {
    var f := known.fields[j];
    assert ResolvedField(f);
    NoCopyReads(R, S, f, b);
    ReadFieldValueTyped(S, known, j, b);
    hide ReadFieldValue, Back, EncodeValue, Canonical, Cost, Typed, Built, ResolvedField;
    var w := ReadFieldValue(S, f, b).value;
    forall s ensures FieldBackBefore(R, S, f, w.val, w.val, w.cost, s) {
      NoCopyBack(R, S, f, w.val, w.cost, s);
    }
  }

  lemma NoCopyReads(R: Schema, S: Schema, f: Field, b: seq<Byte>)
    requires ResolvedField(f) && f.noCopy
    ensures FixedSize(f.typ) == 0 && ReadFieldValue(R, f, b) == ReadFieldValue(S, f, b)
    ensures var r := ReadFieldValue(S, f, b); r.Some? ==> Readable(f.typ, r.value.val)
  {
    hide Get32;
  }

  lemma FieldStored(R: Schema, S: Schema, full: StructDesc, known: StructDesc, us: seq<Value>, ws: seq<Value>, hi: nat,
                    j: nat, u: Value, w: Value, c: nat)
    requires Older(known, full) && RelatedFields(R, S, full, known, us, ws, hi) && j < |known.fields|
    requires |us| == |known.fields| && |ws| == |full.fields| && RelatedField(R, S, known, j, u, w, c)
    ensures RelatedFields(R, S, full, known, us[j := u], ws[At(known, full, j) := w], Max(hi, c))
  {
    hide Older, At, RelatedField, Built;
    PositionsDiffer(known, full, j);
    var more := Max(hi, c);
    var us1, ws1 := us[j := u], ws[At(known, full, j) := w];
    RelatedFieldMore(R, S, known, j, u, w, c, more);
    forall k | 0 <= k < |us| ensures RelatedField(R, S, known, k, us1[k], ws1[At(known, full, k)], more) {
      if k != j {
        RelatedFieldMore(R, S, known, k, us[k], ws[At(known, full, k)], hi, more);
      }
    }
  }

  lemma FieldPassed(R: Schema, S: Schema, full: StructDesc, known: StructDesc, us: seq<Value>, ws: seq<Value>, hi: nat,
                    i: nat, w: Value)
    requires Older(known, full) && RelatedFields(R, S, full, known, us, ws, hi) && |ws| == |full.fields|
    requires i < |full.fields| && !Knows(known, full.fields[i].id)
    ensures RelatedFields(R, S, full, known, us, ws[i := w], hi)
  {
    hide Older, At, RelatedField, Knows, Built;
    UnknownIsNowhere(known, full, i);
  }

  lemma FieldsMore(R: Schema, S: Schema, full: StructDesc, known: StructDesc, us: seq<Value>, ws: seq<Value>, hi: nat,
                   more: nat)
    requires Older(known, full) && RelatedFields(R, S, full, known, us, ws, hi) && hi <= more
    ensures RelatedFields(R, S, full, known, us, ws, more)
  {
    hide Older, At, RelatedField, Built;
    forall k | 0 <= k < |us| ensures RelatedField(R, S, known, k, us[k], ws[At(known, full, k)], more) {
      RelatedFieldMore(R, S, known, k, us[k], ws[At(known, full, k)], hi, more);
    }
  }

  /** One field of a message, with both schemas. */
  lemma {:induction false} FieldReturns(R: Schema, S: Schema, full: StructDesc, known: StructDesc, b: seq<Byte>,
                                        pf: Partial, pk: Partial, hi: nat)
    requires Evolved(R, S) && DescNamesIn(R, known) && Older(known, full)
    requires |pk.fields| == |known.fields| && |pf.fields| == |full.fields|
    requires RelatedFields(R, S, full, known, pk.fields, pf.fields, hi)
    requires b != [] && b[0] != STOP && ReadField(S, full, b, pf).Some?
    ensures var hf := ReadField(S, full, b, pf).value;
      var hk := ReadField(R, known, b, pk);
      && hk.Some? && hk.value.n == hf.n && hk.value.cost <= hf.cost
      && RelatedFields(R, S, full, known, hk.value.val.fields, hf.val.fields, Max(hi, hf.cost))
    decreases |b|, 0
  {
    hide Evolved, DescNamesIn, Older, Knows, At, ReadFieldValue, SkipValue, Get16, KnownField, RelatedFields, Built;
    var wt, id := b[0], Get16(b[1..]);
    KnownToBoth(known, full, wt, id);
    ReadFieldSkips(S, full, b, pf);
    var hf := ReadField(S, full, b, pf).value;
    match KnownField(known, wt, id)
    case Some(j) =>
      FieldValueReturns(R, S, known, j, b[3..]);
      var u, w := ReadFieldValue(R, known.fields[j], b[3..]).value, ReadFieldValue(S, known.fields[j], b[3..]).value;
      FieldStored(R, S, full, known, pk.fields, pf.fields, hi, j, u.val, w.val, w.cost);
    case None =>
      if KnownField(full, wt, id).Some? {
        var i := KnownField(full, wt, id).value;
        FieldPassed(R, S, full, known, pk.fields, pf.fields, hi, i, hf.val.fields[i]);
      }
      FieldsMore(R, S, full, known, pk.fields, hf.val.fields, hi, Max(hi, hf.cost));
  }

  lemma {:induction false} FieldsReturn(R: Schema, S: Schema, full: StructDesc, known: StructDesc, b: seq<Byte>,
                                        pf: Partial, pk: Partial, hi: nat)
    requires Evolved(R, S) && DescNamesIn(R, known) && Older(known, full)
    requires |pk.fields| == |known.fields| && |pf.fields| == |full.fields|
    requires RelatedFields(R, S, full, known, pk.fields, pf.fields, hi) && ReadFields(S, full, b, pf).Some?
    ensures var rf := ReadFields(S, full, b, pf).value;
      var rk := ReadFields(R, known, b, pk);
      && rk.Some? && rk.value.n == rf.n && rk.value.cost <= rf.cost
      && RelatedFields(R, S, full, known, rk.value.val.fields, rf.val.fields, Max(hi, rf.cost))
    decreases |b|, 1
  {
    hide Evolved, DescNamesIn, Older, ReadField, RelatedFields, Built;
    if b[0] != STOP {
      FieldReturns(R, S, full, known, b, pf, pk, hi);
      var hf, hk := ReadField(S, full, b, pf).value, ReadField(R, known, b, pk).value;
      FieldsReturn(R, S, full, known, b[hf.n..], hf.val, hk.val, Max(hi, hf.cost));
    }
  }

  lemma DefaultsRelated(R: Schema, S: Schema, full: StructDesc, known: StructDesc)
    requires Older(known, full) && FlatInit(known) && InitTyped(S, full)
    ensures RelatedFields(R, S, full, known, known.init, full.init, 0)
  {
    hide Flat, Typed, RelatedField;
    forall j | 0 <= j < |known.fields|
      ensures RelatedField(R, S, known, j, known.init[j], full.init[At(known, full, j)], 0)
    {
      assert Typed(S, full.fields[At(known, full, j)].typ, full.init[At(known, full, j)]);
      DefaultRelated(R, S, known, j);
    }
  }

  /** A whole struct: the old schema reads it, and it is complete there too. */
  lemma {:induction false} DescReturns(R: Schema, S: Schema, full: StructDesc, known: StructDesc, b: seq<Byte>)
    requires Evolved(R, S) && DescNamesIn(R, known) && Older(known, full) && FlatInit(known) && InitTyped(S, full)
    requires ReadStruct(S, full, b, Fresh(full)).Some?
    ensures var w := ReadStruct(S, full, b, Fresh(full)).value;
      var r := ReadStruct(R, known, b, Fresh(known));
      && r.Some? && r.value.n == w.n && r.value.cost <= w.cost && w.cost > 0
      && ReadTogether(R, S, full, known, b, r.value.val, w.val, w.cost - 1)
      && Shaped(known, r.value.val) && Shaped(full, w.val)
    decreases |b|, 2
  {
    hide Evolved, DescNamesIn, Older, FlatInit, InitTyped, ReadFields, RelatedFields, Passes, Complete, ReplayCost;
    var pf0, pk0 := Partial(full.init, [], {}), Partial(known.init, [], {});
    DefaultsRelated(R, S, full, known);
    FieldsReturn(R, S, full, known, b, pf0, pk0, 0);
    StartInStep(S, full, known, pf0);
    InStepPasses(S, full, known, pf0, pk0, pf0);
    FieldsPass(R, S, full, known, b, pf0, pk0, pf0);
    StillComplete(S, full, known, ReadFields(S, full, b, pf0).value.val, ReadFields(R, known, b, pk0).value.val, pf0);
  }

  lemma OldStruct(R: Schema, S: Schema, name: Name)
    requires Evolved(R, S) && name in R
    ensures name in S && Older(R[name], S[name]) && DescNamesIn(R, R[name])
    ensures FlatInit(R[name]) && InitTyped(S, S[name])
  {
  }

  lemma {:induction false} StructReturns(R: Schema, S: Schema, name: Name, b: seq<Byte>)
    requires Evolved(R, S) && name in R && ReadNested(S, name, b).Some?
    ensures Returned(R, S, TStruct(name), ReadNested(R, name, b), ReadNested(S, name, b).value)
    decreases |b|, 3
  {
    hide Evolved, DescNamesIn, Older, FlatInit, InitTyped, ReadStruct, ReadTogether, Related, Built;
    OldStruct(R, S, name);
    AsManyDefaults(R[name]);
    AsManyDefaults(S[name]);
    DescReturns(R, S, S[name], R[name], b);
    var u, w := ReadStruct(R, R[name], b, Fresh(R[name])).value, ReadStruct(S, S[name], b, Fresh(S[name])).value;
    StructRelated(R, S, name, b, u.val, w.val, w.cost - 1);
  }

  lemma NestedParts(R: Schema, name: Name, u: Value)
    requires name in R && Shaped(R[name], u)
    ensures EncodeValue(R, TStruct(name), u) == EncodeStruct(R, R[name], u)
    ensures Canonical(R, TStruct(name), u) <==> CanonicalFields(R, R[name], u, 0)
    ensures Cost(R, TStruct(name), u) == 1 + StructCost(R, R[name], u)
  {
    hide EncodeStruct, CanonicalFields, StructCost, Built;
  }

  lemma StructRelated(R: Schema, S: Schema, name: Name, b: seq<Byte>, u: Value, w: Value, hi: nat)
    requires name in R && name in S && ReadTogether(R, S, S[name], R[name], b, u, w, hi)
    requires Shaped(R[name], u) && Shaped(S[name], w)
    ensures Related(R, S, TStruct(name), u, w, 2 + hi)
  {
    hide ReadTogether, ReadStruct, EncodeStruct, CanonicalFields, StructCost, Related, Back, EncodeValue, Canonical;
    hide Cost, ReadValue, Built;
    var t, more := TStruct(name), 2 + hi;
    AsManyDefaults(S[name]);
    NestedParts(R, name, u);
    forall s ensures BackBefore(R, S, t, u, w, more, s) {
      var x := ReadStruct(S, S[name], EncodeStruct(R, R[name], u) + s, Fresh(S[name]));
      StructBack(R, S, S[name], R[name], b, u, w, hi, s);
      BackBehind(x, w, |EncodeStruct(R, R[name], u)|, CanonicalFields(R, R[name], u, 0), StructCost(R, R[name], u),
                 1 + hi, 0, (v: Value) => v, w);
      NestedSteps(S, t, EncodeStruct(R, R[name], u) + s);
    }
    FromBack(R, S, t, u, w, more);
  }

  // ----- The hop

  /** The same for the reader. */
  lemma HopReads(R: Schema, S: Schema, full: StructDesc, known: StructDesc, b: seq<Byte>, s: seq<Byte>)
    requires Evolved(R, S) && DescNamesIn(R, known) && Older(known, full) && FlatInit(known)
    requires InitTyped(R, known) && InitTyped(S, full) && ReadStruct(S, full, b, Fresh(full)).Some?
    ensures var w := ReadStruct(S, full, b, Fresh(full)).value;
      var r := ReadStruct(R, known, b, Fresh(known));
      && r.Some? && r.value.n == w.n && r.value.cost <= w.cost
      && Shaped(known, r.value.val) && TypedStruct(R, known, r.value.val)
      && var e := EncodeStruct(R, known, r.value.val);
         Back(ReadStruct(S, full, e + s, Fresh(full)), w.val, |e|, CanonicalFields(R, known, r.value.val, 0),
              StructCost(R, known, r.value.val), w.cost)
  {
    hide ReadStruct, EncodeStruct, CanonicalFields, StructCost, Older, FlatInit, DescNamesIn, Back, Typed, ReadTogether;
    AsManyDefaults(full);
    DescReturns(R, S, full, known, b);
    var w, u := ReadStruct(S, full, b, Fresh(full)).value, ReadStruct(R, known, b, Fresh(known)).value;
    StructBack(R, S, full, known, b, u.val, w.val, w.cost - 1, s);
    FreshTyped(R, known);
    ReadStructTyped(R, known, b, Fresh(known));
  }

  /**
    A message that decodes with the new schema decodes with the old one. What the old one then
    encodes decodes with the new schema, whatever follows it, to the very struct that the
    message itself gives if and only if what the old schema read is canonical and the budget,
    which is at least that of the first decode, covers it.
   */
  lemma HopThroughOldSchema(R: Schema, S: Schema, full: StructDesc, known: StructDesc, b: seq<Byte>, s: seq<Byte>,
                            depth: nat, again: nat)
    requires Evolved(R, S) && DescNamesIn(R, known) && Older(known, full) && FlatInit(known)
    requires InitTyped(R, known) && InitTyped(S, full)
    requires DecodeStruct(S, full, b, Fresh(full), depth).Ok? && depth <= again
    ensures var w := DecodeStruct(S, full, b, Fresh(full), depth);
      var r := DecodeStruct(R, known, b, Fresh(known), depth);
      && r.Ok? && r.n == w.n && Shaped(known, r.val) && TypedStruct(R, known, r.val)
      && var e := EncodeStruct(R, known, r.val);
         var x := DecodeStruct(S, full, e + s, Fresh(full), again);
         && (x == Ok(w.val, |e|) <==> CanonicalFields(R, known, r.val, 0) && StructCost(R, known, r.val) <= again)
         && (CanonicalFields(R, known, r.val, 0) && !x.Ok? ==> x.Err? && x.kind == DepthLimit)
  {
    hide DecodeStruct, ReadStruct, EncodeStruct, CanonicalFields, StructCost, Older, FlatInit, DescNamesIn;
    hide TypedStruct, Evolved;
    AsManyDefaults(full);
    AsManyDefaults(known);
    DecoderIsReader(S, full, b, Fresh(full), depth);
    DecoderIsReader(R, known, b, Fresh(known), depth);
    HopReads(R, S, full, known, b, s);
    var u := ReadStruct(R, known, b, Fresh(known)).value.val;
    DecoderIsReader(S, full, EncodeStruct(R, known, u) + s, Fresh(full), again);
  }
}
