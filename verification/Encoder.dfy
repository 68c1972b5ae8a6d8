/**
  Encoding into a byte slice (internal/reflect/append.go, append_list.go, append_map.go,
  append_list_fast.go, append_map_fast.go and EncodeObject in frugal.go). Every method
  extends its slice by exactly the bytes that module Wire specifies, provided that the
  writers of maps find every entry in its slot and come across it once. `settled` says that
  no map of the value is in the middle of growing.
 */
module Encoder {
  import opened Common
  import opened BigEndian
  import opened Schema
  import opened Wire
  import opened ReadingBack
  import opened FastPaths
  import opened GoSlice
  import opened Codec

  method AppendScalar(b: Slice, w: Writer, v: Value) returns (r: Slice)
    requires b.Valid() && w != WOther
    modifies b.arr
    ensures Extends(b, r, ScalarBytes(w, v))
  {
    hide Put16, Put32, Put64, Grown;
    ghost var s := b.Snapshot();
    var bits := if v.Fixed? then v.bits else 0;
    match w {
      case WBool => r := Append(b, [if bits != 0 then 1 else 0]);
      case WI08 => r := Append(b, [bits % 0x100]);
      case WI16 => r := Append(b, Put16(bits));
      case WI32 => r := Append(b, Put32(bits));
      case WI64 => r := Append(b, Put64(bits));
      case WEnum => r := Append(b, Put32(bits));
      case WString =>
        r := Append(b, Put32(|Content(v)|));
        ghost var t := r.Snapshot();
        r := Append(r, Content(v));
        GrownTwice(s, t, r.Snapshot(), Put32(|Content(v)|), Content(v));
    }
  }

  /** appendAny: a pointer is followed, simple types are written in place. */
  method AppendAny(S: Schema, t: Type, b: Slice, v: Value, settled: bool) returns (r: Slice, ok: bool)
    requires b.Valid() && Typed(S, t, v) && Readable(t, v) && InPlace(S, t, v, settled)
    modifies b.arr
    ensures ok && Extends(b, r, EncodeValue(S, t, v))
    decreases v, 3
  {
    var w := ScalarWriter(KindOf(t));
    if w != WOther {
      r := AppendScalar(b, RawBool(w), v);
      ok := true;
      PointeeWrites(S, t, v);
    } else {
      r, ok := AppendFunc(S, t, b, v, settled);
    }
  }

  lemma PointeeWrites(S: Schema, t: Type, v: Value)
    requires Typed(S, t, v) && Readable(t, v) && ScalarWriter(KindOf(t)) != WOther
    ensures ScalarBytes(RawBool(ScalarWriter(KindOf(t))), v) == EncodeValue(S, t, v)
  {
    hide Built, EncodeMap, EncodeList, EncodeStruct;
    if t.TPtr? {
      PointeeWrites(S, t.pointee, v);
    }
  }

  /** tType.AppendFunc of the types that are not simple. */
  method AppendFunc(S: Schema, t: Type, b: Slice, v: Value, settled: bool) returns (r: Slice, ok: bool)
    requires b.Valid() && Typed(S, t, v) && ElemType(t) && ScalarWriter(KindOf(t)) == WOther
    requires InPlace(S, t, v, settled)
    modifies b.arr
    ensures ok && Extends(b, r, EncodeValue(S, t, v))
    decreases v, 2
  {
    match t {
      case TStruct(name) => r, ok := AppendStruct(S, S[name], b, v, settled);
      case TMap(kt, vt) => r, ok := AppendMap(S, kt, vt, b, v, settled);
      case TSet(e) => r, ok := AppendList(S, e, b, v, settled);
      case TList(e) => r, ok := AppendList(S, e, b, v, settled);
    }
  }

  /** appendStruct: a nil struct is a bare STOP. */
  method AppendStruct(S: Schema, sd: StructDesc, b: Slice, v: Value, settled: bool) returns (r: Slice, ok: bool)
    requires b.Valid() && (v.Nil? || TypedStruct(S, sd, v)) && StructInPlace(S, sd, v, settled)
    modifies b.arr
    ensures ok && Extends(b, r, if v.Nil? then [STOP] else EncodeStruct(S, sd, v))
    decreases v, 1
  {
    if v.Nil? {
      r := Append(b, [STOP]);
      return r, true;
    }
    hide Built, EncodeFields, Typed, InPlace, ValidUnknown, Grown;
    ghost var s := b.Snapshot();
    ghost var xs := EncodeFields(S, sd, v, 0);
    r, ok := AppendFields(S, sd, b, v, settled);
    ghost var t := r.Snapshot();
    var unknown := if sd.hasUnknown then v.unknown else [];
    GrownByNothing(t);
    if |unknown| > 0 {
      r := Append(r, unknown);
    }
    GrownTwice(s, t, r.Snapshot(), xs, unknown);
    t := r.Snapshot();
    r := Append(r, [STOP]);
    GrownTwice(s, t, r.Snapshot(), xs + unknown, [STOP]);
  }

  /** The loop over the fields. */
  method AppendFields(S: Schema, sd: StructDesc, b: Slice, v: Value, settled: bool) returns (r: Slice, ok: bool)
    requires b.Valid() && TypedStruct(S, sd, v) && StructInPlace(S, sd, v, settled)
    modifies b.arr
    ensures ok && Extends(b, r, EncodeFields(S, sd, v, 0))
    decreases v, 0
  {
    hide Built, EncodeField, EncodeFields, Typed, InPlace, ValidUnknown, Grown;
    r, ok := b, true;
    ghost var s, t := b.Snapshot(), b.Snapshot();
    ghost var xs: seq<Byte> := [];
    GrownByNothing(s);
    for i := 0 to |sd.fields|
      invariant ok && r.Valid() && (r.arr == b.arr || fresh(r.arr))
      invariant t == r.Snapshot() && Grown(s, t, xs)
      invariant xs + EncodeFields(S, sd, v, i) == EncodeFields(S, sd, v, 0)
    {
      FieldsCons(S, sd, v, i, xs);
      r, ok := AppendField(S, sd, i, r, v.fields[i], settled);
      GrownTwice(s, t, r.Snapshot(), xs, EncodeField(S, sd, i, v.fields[i]));
      t, xs := r.Snapshot(), xs + EncodeField(S, sd, i, v.fields[i]);
    }
    NoMoreFields(S, sd, v);
    assert xs + [] == xs;
  }

  lemma FieldsCons(S: Schema, sd: StructDesc, v: Value, i: nat, xs: seq<Byte>)
    requires Shaped(sd, v) && i < |sd.fields|
    ensures xs + EncodeFields(S, sd, v, i)
      == xs + EncodeField(S, sd, i, v.fields[i]) + EncodeFields(S, sd, v, i + 1)
  {
    hide Built, EncodeField;
    Assoc(xs, EncodeField(S, sd, i, v.fields[i]), EncodeFields(S, sd, v, i + 1));
  }

  /** Field `i` of the loop in appendStruct: left out, or its header and value. */
  method AppendField(S: Schema, sd: StructDesc, i: nat, b: Slice, p: Value, settled: bool) returns (r: Slice, ok: bool)
    requires b.Valid() && i < |sd.fields| && Typed(S, sd.fields[i].typ, p) && InPlace(S, sd.fields[i].typ, p, settled)
    modifies b.arr
    ensures ok && Extends(b, r, EncodeField(S, sd, i, p))
    decreases p, 4
  {
    hide Typed, InPlace, EncodeValue, Grown;
    ghost var s := b.Snapshot();
    var f := sd.fields[i];
    GrownByNothing(s);
    if CanSkipIfNil(f) && p.Nil? {
      return b, true;
    }
    if CanSkipIfDefault(sd, f) && Equal(f.typ, sd.init[i], p) {
      return b, true;
    }
    FieldIsReadable(sd, i, p);
    var header := [WireType(f.typ), f.id / 0x100 % 0x100, f.id % 0x100];
    assert header == FieldHeader(f);
    r := Append(b, header);
    ghost var t := r.Snapshot();
    r, ok := AppendAny(S, f.typ, r, p, settled);
    GrownTwice(s, t, r.Snapshot(), header, EncodeValue(S, f.typ, p));
  }

  method AppendList(S: Schema, e: Type, b: Slice, v: Value, settled: bool) returns (r: Slice, ok: bool)
    requires b.Valid() && TypedList(S, e, v) && ElemType(e) && ListInPlace(S, e, v, settled)
    modifies b.arr
    ensures ok && Extends(b, r, EncodeList(S, e, v))
    decreases v, 1
  {
    if v.Nil? {
      r := Append(b, [WireType(e), 0, 0, 0, 0]);
      return r, true;
    }
    r, ok := AppendElems(S, e, b, v, settled);
  }

  /** The header and the elements of a slice that is not nil. */
  method AppendElems(S: Schema, e: Type, b: Slice, v: Value, settled: bool) returns (r: Slice, ok: bool)
    requires b.Valid() && v.List? && TypedList(S, e, v) && ElemType(e) && ListInPlace(S, e, v, settled)
    modifies b.arr
    ensures ok && Extends(b, r, [WireType(e)] + Put32(|v.elems|) + EncodeElems(S, e, v, 0))
    decreases v, 0
  {
    hide Built, Put32, EncodeElems, EncodeValue, Typed, InPlace, Grown;
    var header := [WireType(e)] + Put32(|v.elems|);
    ghost var s := b.Snapshot();
    r := Append(b, header);
    ok := true;
    NoMoreElems(S, e, v);
    if |v.elems| == 0 {
      assert header + [] == header;
      return;
    }
    ghost var t, xs := r.Snapshot(), header;
    for j := 0 to |v.elems|
      invariant ok && r.Valid() && (r.arr == b.arr || fresh(r.arr))
      invariant t == r.Snapshot() && Grown(s, t, xs)
      invariant xs + EncodeElems(S, e, v, j) == header + EncodeElems(S, e, v, 0)
    {
      ElemsCons(S, e, v, j, xs);
      r, ok := AppendElem(S, e, r, v.elems[j], settled);
      GrownTwice(s, t, r.Snapshot(), xs, EncodeValue(S, e, v.elems[j]));
      t, xs := r.Snapshot(), xs + EncodeValue(S, e, v.elems[j]);
    }
    assert xs + [] == xs;
  }

  lemma ElemsCons(S: Schema, e: Type, v: Value, j: nat, xs: seq<Byte>)
    requires v.List? && j < |v.elems|
    ensures xs + EncodeElems(S, e, v, j) == xs + EncodeValue(S, e, v.elems[j]) + EncodeElems(S, e, v, j + 1)
  {
    hide Built, EncodeValue;
    Assoc(xs, EncodeValue(S, e, v.elems[j]), EncodeElems(S, e, v, j + 1));
  }

  /** An element through the registered list function, or through appendListAny. */
  method AppendElem(S: Schema, e: Type, b: Slice, v: Value, settled: bool) returns (r: Slice, ok: bool)
    requires b.Valid() && Typed(S, e, v) && ElemType(e) && InPlace(S, e, v, settled)
    modifies b.arr
    ensures ok && Extends(b, r, EncodeValue(S, e, v))
    decreases v, 4
  {
    hide Built, Typed, InPlace, EncodeValue, Written, Grown;
    match ListWriter(KindOf(e)) {
      case None => r, ok := AppendAny(S, e, b, v, settled);
      case Some(w) =>
        ListWriterWrites(S, e, v);
        r, ok := AppendWith(S, w, e, b, v, settled);
    }
  }

  /** One value through the writer of a specialised function. */
  method AppendWith(S: Schema, w: Writer, t: Type, b: Slice, v: Value, settled: bool) returns (r: Slice, ok: bool)
    requires b.Valid() && Typed(S, t, v) && ElemType(t) && InPlace(S, t, v, settled)
    requires w == WOther ==> ScalarWriter(KindOf(t)) == WOther
    modifies b.arr
    ensures ok && Extends(b, r, Written(S, w, t, v))
    decreases v, 3
  {
    if w == WOther {
      r, ok := AppendFunc(S, t, b, v, settled);
    } else {
      r := AppendScalar(b, w, v);
      ok := true;
    }
  }

  method AppendMap(S: Schema, kt: Type, vt: Type, b: Slice, v: Value, settled: bool) returns (r: Slice, ok: bool)
    requires b.Valid() && Typed(S, TMap(kt, vt), v) && ElemType(TMap(kt, vt))
    requires MapInPlace(S, kt, vt, v, settled)
    modifies b.arr
    ensures ok && Extends(b, r, EncodeMap(S, kt, vt, v))
    decreases v, 1
  {
    hide Built, EncodeEntries, Grown, InPlace, RangesOnce, SlotsAgree;
    if v.Nil? {
      r := Append(b, [WireType(kt), WireType(vt), 0, 0, 0, 0]);
      assert [WireType(kt), WireType(vt), 0, 0, 0, 0] == EncodeMap(S, kt, vt, v);
      return r, true;
    }
    NoMoreEntries(S, kt, vt, v);
    var it := Iterate(kt, vt, v, settled);
    r, ok := AppendEntries(S, kt, vt, b, |v.entries|, it, settled);
  }

  /**
    What ranging over a map yields: each entry once, or, where it is not known that it does
    so, some sequence of entries of the map.
   */
  method Iterate(kt: Type, vt: Type, v: Value, settled: bool) returns (it: Value)
    requires v.Map?
    ensures it.Map? && forall e :: e in it.entries ==> e in v.entries
    ensures RangesOnce(kt, vt, settled) || v.entries == [] ==> it == v
  {
    if RangesOnce(kt, vt, settled) || |v.entries| == 0 {
      return v;
    }
    var es: seq<Entry> := [];
    var n :| n >= 0;
    for i := 0 to n
      invariant forall e :: e in es ==> e in v.entries
    {
      var p :| 0 <= p < |v.entries|;
      es := es + [v.entries[p]];
    }
    return Map(es);
  }

  /**
    A map whose length is read as `mapLen` and whose iteration then yields the entries of
    `it`, whichever they are, each found in some slot. The counter is a uint32.
   */
  method AppendEntries(S: Schema, kt: Type, vt: Type, b: Slice, mapLen: nat, it: Value,
                       settled: bool) returns (r: Slice, ok: bool)
    requires b.Valid() && it.Map? && ElemType(TMap(kt, vt)) && EntriesInPlace(S, kt, vt, it, settled)
    requires forall j :: 0 <= j < |it.entries| ==> Typed(S, kt, it.entries[j].key) && Typed(S, vt, it.entries[j].val)
    modifies b.arr
    ensures ok <==> mapLen % TWO_32 == 0 || mapLen % TWO_32 == |it.entries| % TWO_32
    ensures Extends(b, r, [WireType(kt), WireType(vt)] + Put32(mapLen) +
                          (if mapLen % TWO_32 == 0 then [] else EncodeEntries(S, kt, vt, it, 0)))
    decreases it, 0
  {
    hide Built, Put32, EncodeEntries, EncodeEntry, Typed, InPlace, Grown;
    var header := [WireType(kt), WireType(vt)] + Put32(mapLen);
    var n := mapLen % TWO_32;
    ghost var s := b.Snapshot();
    r := Append(b, header);
    NoMoreEntries(S, kt, vt, it);
    if n == 0 {
      assert header + [] == header;
      return r, true;
    }
    ghost var t, xs := r.Snapshot(), header;
    ghost var gone := 0;
    for j := 0 to |it.entries|
      invariant 0 <= n < TWO_32 && mapLen % TWO_32 + gone * TWO_32 == n + j
      invariant r.Valid() && (r.arr == b.arr || fresh(r.arr))
      invariant t == r.Snapshot() && Grown(s, t, xs)
      invariant xs + EncodeEntries(S, kt, vt, it, j) == header + EncodeEntries(S, kt, vt, it, 0)
    {
      if n == 0 {
        gone := gone + 1;
      }
      n := if n == 0 then TWO_32 - 1 else n - 1;
      EntriesCons(S, kt, vt, it, j, xs);
      var p: nat := *;
      var seen := Seen(kt, vt, p, it.entries[j]);
      SeenInPlace(kt, vt, p, it.entries[j]);
      r, ok := AppendEntry(S, kt, vt, r, seen.value, settled);
      GrownTwice(s, t, r.Snapshot(), xs, EncodeEntry(S, kt, vt, it.entries[j]));
      t, xs := r.Snapshot(), xs + EncodeEntry(S, kt, vt, it.entries[j]);
    }
    assert xs + [] == xs;
    ok := n == 0;
    Counted(mapLen, |it.entries|, n, gone);
  }

  /** A uint32 counter that started at `m` and was decremented `k` times. */
  lemma Counted(m: nat, k: nat, n: nat, gone: int)
    requires n < TWO_32 && m % TWO_32 + gone * TWO_32 == n + k
    ensures n == 0 <==> m % TWO_32 == k % TWO_32
  {
  }

  lemma EntriesCons(S: Schema, kt: Type, vt: Type, v: Value, j: nat, xs: seq<Byte>)
    requires v.Map? && j < |v.entries|
    ensures xs + EncodeEntries(S, kt, vt, v, j)
      == xs + EncodeEntry(S, kt, vt, v.entries[j]) + EncodeEntries(S, kt, vt, v, j + 1)
  {
    hide Built, EncodeEntry;
    Assoc(xs, EncodeEntry(S, kt, vt, v.entries[j]), EncodeEntries(S, kt, vt, v, j + 1));
  }

  /** A key and a value through the registered map function. */
  method AppendEntry(S: Schema, kt: Type, vt: Type, b: Slice, e: Entry, settled: bool) returns (r: Slice, ok: bool)
    requires b.Valid() && ElemType(TMap(kt, vt))
    requires Typed(S, kt, e.key) && Typed(S, vt, e.val)
    requires InPlace(S, kt, e.key, settled) && InPlace(S, vt, e.val, settled)
    modifies b.arr
    ensures ok && Extends(b, r, EncodeEntry(S, kt, vt, e))
    decreases e, 0
  {
    hide Built, Typed, InPlace, EncodeValue, Written, EncodeEntry, Grown;
    var w := MapWriters(KindOf(kt), KindOf(vt));
    MapWritersWrite(S, kt, vt, e);
    ghost var s := b.Snapshot();
    r, ok := AppendWith(S, w.0, kt, b, e.key, settled);
    ghost var t := r.Snapshot();
    r, ok := AppendWith(S, w.1, vt, r, e.val, settled);
    GrownTwice(s, t, r.Snapshot(), Written(S, w.0, kt, e.key), Written(S, w.1, vt, e.val));
  }

  /** Append: the root may be a nil pointer. */
  function EncodeRoot(S: Schema, sd: StructDesc, v: Value): seq<Byte>
    requires v.Nil? || Shaped(sd, v)
  {
    if v.Nil? then [STOP] else EncodeStruct(S, sd, v)
  }

  /**
    EncodeObject, for a value whose maps are read in place: succeeds exactly when the encoding
    fits into the buffer. It then returns the length of the encoding, which stands in the
    caller's own array, and the rest of the array is untouched.
   */
  method EncodeObject(S: Schema, sd: StructDesc, buf: Slice, v: Value, settled: bool) returns (n: nat, ok: bool)
    requires buf.Valid() && (v.Nil? || TypedStruct(S, sd, v)) && StructInPlace(S, sd, v, settled)
    modifies buf.arr
    ensures ok <==> |EncodeRoot(S, sd, v)| <= buf.len
    ensures ok ==> n == |EncodeRoot(S, sd, v)| && buf.arr[..n] == EncodeRoot(S, sd, v)
    ensures ok ==> buf.arr[n..] == old(buf.arr[n..])
    ensures !ok ==> n == 0
  {
    hide Built, EncodeStruct, InPlace;
    var b := Slice(buf.arr, 0);
    ghost var s := b.Snapshot();
    var r, encoded := AppendStruct(S, sd, b, v, settled);
    assert s.all[..0] + EncodeRoot(S, sd, v) == EncodeRoot(S, sd, v);
    if r.len > buf.len {
      return 0, false;
    }
    return r.len, encoded;
  }
}
