/**
  Types, values and struct descriptors (internal/reflect/ttype.go, internal/reflect/desc.go).
  A struct type is a name looked up in a schema, so that structs may refer to each other
  and to themselves. Struct-typed fields and elements are always pointers.
 */
module Schema {
  import opened Common

  type Name = string

  datatype Type =
    | TBool | TByte | TDouble | TI16 | TI32 | TI64
    | TEnum                                  // int64 in memory, i32 on the wire
    | TString | TBinary
    | TStruct(name: Name)                    // pointer to a struct
    | TMap(key: Type, val: Type)
    | TSet(elem: Type)
    | TList(elem: Type)
    | TPtr(pointee: Type)                    // optional scalar or string behind a pointer

  const STOP: Byte := 0
  const WT_BOOL: Byte := 2
  const WT_BYTE: Byte := 3
  const WT_DOUBLE: Byte := 4
  const WT_I16: Byte := 6
  const WT_I32: Byte := 8
  const WT_I64: Byte := 10
  const WT_STRING: Byte := 11
  const WT_STRUCT: Byte := 12
  const WT_MAP: Byte := 13
  const WT_SET: Byte := 14
  const WT_LIST: Byte := 15

  function WireType(t: Type): Byte {
    match t
    case TBool => WT_BOOL
    case TByte => WT_BYTE
    case TDouble => WT_DOUBLE
    case TI16 => WT_I16
    case TI32 => WT_I32
    case TI64 => WT_I64
    case TEnum => WT_I32
    case TString => WT_STRING
    case TBinary => WT_STRING
    case TStruct(_) => WT_STRUCT
    case TMap(_, _) => WT_MAP
    case TSet(_) => WT_SET
    case TList(_) => WT_LIST
    case TPtr(e) => WireType(e)
  }

  lemma {:induction false} WireTypeIsNotStop(t: Type)
    ensures WireType(t) != STOP
    decreases t
  {
    if t.TPtr? {
      WireTypeIsNotStop(t.pointee);
    }
  }

  /** Encoded length of a type whose values all have the same length, else 0. */
  function FixedSize(t: Type): nat {
    match t
    case TBool => 1
    case TByte => 1
    case TDouble => 8
    case TI16 => 2
    case TI32 => 4
    case TI64 => 8
    case TEnum => 4
    case TPtr(e) => FixedSize(e)
    case _ => 0
  }

  /** The table minWireSize; 0 for wire types that are not listed there. */
  function MinWireSize(wt: Byte): nat {
    if wt == WT_BOOL || wt == WT_BYTE || wt == WT_STRUCT then 1
    else if wt == WT_I16 then 2
    else if wt == WT_I32 || wt == WT_STRING then 4
    else if wt == WT_I64 || wt == WT_DOUBLE then 8
    else if wt == WT_MAP then 6
    else if wt == WT_SET || wt == WT_LIST then 5
    else 0
  }

  /** Types allowed as map keys (defs.Type.IsKeyType, without pointers to by-value structs). */
  predicate IsKeyType(t: Type) {
    t.TString? || t.TStruct? || (FixedSize(t) > 0 && !t.TPtr?)
  }

  /**
    Types the codec treats uniformly: pointers only to scalars and strings and only as the
    type of a field.
   */
  predicate ElemType(t: Type) {
    match t
    case TPtr(_) => false
    case TMap(k, v) => IsKeyType(k) && ElemType(k) && ElemType(v)
    case TSet(e) => ElemType(e)
    case TList(e) => ElemType(e)
    case _ => true
  }

  predicate FieldType(t: Type) {
    if t.TPtr? then
      ElemType(t.pointee) && (t.pointee.TString? || FixedSize(t.pointee) > 0)
    else
      ElemType(t)
  }

  // ----- Values

  /**
    A Go value. A non-nil pointer is represented by what it points to. Scalars are
    unsigned bit patterns of their in-memory width. The entries of a map are listed in
    one iteration order.
   */
  datatype Value =
    | Nil
    | Fixed(bits: nat)
    | Bytes(data: seq<Byte>)
    | Struct(fields: seq<Value>, unknown: seq<Byte>)
    | List(elems: seq<Value>)
    | Map(entries: seq<Entry>)

  datatype Entry = Entry(key: Value, val: Value)

  /** Number of patterns of a scalar in memory; an enum is held in 64 bits. */
  function Patterns(t: Type): nat {
    match t
    case TBool => 0x100
    case TByte => 0x100
    case TI16 => 0x1_0000
    case TI32 => TWO_32
    case _ => TWO_64
  }

  predicate InInt32(bits: nat) {
    bits < TWO_31 || TWO_64 - TWO_31 <= bits < TWO_64
  }

  predicate FixedInRange(t: Type, bits: nat) {
    bits < Patterns(t) && (t.TEnum? ==> InInt32(bits))
  }

  predicate IsNaN(bits: nat) {
    bits / 0x10_0000_0000_0000 % 0x800 == 0x7FF && bits % 0x10_0000_0000_0000 != 0
  }

  predicate IsZero(bits: nat) {
    bits % 0x8000_0000_0000_0000 == 0
  }

  /** Go's == on float64 bit patterns. */
  predicate FloatEq(a: nat, b: nat) {
    !IsNaN(a) && !IsNaN(b) && (a == b || (IsZero(a) && IsZero(b)))
  }

  /** tType.Equal: always false outside scalars and strings; a nil []byte reads as "". */
  predicate Equal(t: Type, a: Value, b: Value) {
    if FixedSize(t) > 0 then
      a.Fixed? && b.Fixed? && (if t.TDouble? then FloatEq(a.bits, b.bits) else a == b)
    else if t.TString? || t.TBinary? then
      Content(a) == Content(b)
    else
      false
  }

  /** What a string header holds: a nil slice has no bytes. */
  function Content(v: Value): seq<Byte> {
    if v.Bytes? then v.data else []
  }

  /** Go's == on map keys. Two struct pointers that are not nil are distinct objects. */
  predicate KeyEq(kt: Type, a: Value, b: Value) {
    if kt.TDouble? then a.Fixed? && b.Fixed? && FloatEq(a.bits, b.bits)
    else if kt.TStruct? then a.Nil? && b.Nil?
    else a == b
  }

  ghost predicate DistinctKeys(kt: Type, m: seq<Entry>) {
    forall i, j :: 0 <= i < j < |m| ==> !KeyEq(kt, m[i].key, m[j].key)
  }

  function FindKey(kt: Type, m: seq<Entry>, k: Value): (r: Option<nat>)
    ensures r.Some? ==> r.value < |m| && KeyEq(kt, m[r.value].key, k)
    ensures r.None? ==> forall i :: 0 <= i < |m| ==> !KeyEq(kt, m[i].key, k)
  {
    if m == [] then None
    else if KeyEq(kt, m[|m| - 1].key, k) then Some(|m| - 1)
    else FindKey(kt, m[..|m| - 1], k)
  }

  /** reflect.Value.SetMapIndex: an equal key is overwritten, otherwise the entry is new. */
  function MapPut(kt: Type, m: seq<Entry>, e: Entry): seq<Entry> {
    match FindKey(kt, m, e.key)
    case Some(i) => m[i := e]
    case None => m + [e]
  }

  function PutAll(kt: Type, m: seq<Entry>, es: seq<Entry>): seq<Entry>
    decreases |es|
  {
    if es == [] then m else PutAll(kt, MapPut(kt, m, es[0]), es[1..])
  }

  // ----- Struct descriptors

  datatype Requiredness = Default | Required | Optional

  datatype Field = Field(id: nat, typ: Type, spec: Requiredness, noCopy: bool)

  /**
    structDesc. `init` is the content of a freshly allocated struct after InitDefault; the
    default of each field is taken from it when `hasInit` holds.
   */
  datatype RawDesc = Desc(
    fields: seq<Field>,
    maxID: nat,
    fieldIdx: seq<int>,
    fixedLen: nat,
    varLen: seq<nat>,
    required: seq<nat>,
    hasInit: bool,
    init: seq<Value>,
    hasUnknown: bool)

  predicate IsPointer(t: Type) {
    t.TPtr? || t.TStruct?
  }

  /** tField.EncodedSize: -1 when the length of the field depends on its value. */
  function FixedFieldLen(f: Field): int {
    if IsPointer(f.typ) || f.spec == Optional || FixedSize(f.typ) == 0 then -1
    else 3 + FixedSize(f.typ)
  }

  function SumFixed(ff: seq<Field>): nat {
    if ff == [] then 0
    else SumFixed(ff[..|ff| - 1]) + (if FixedFieldLen(ff[|ff| - 1]) > 0 then FixedFieldLen(ff[|ff| - 1]) else 0)
  }

  function VarFields(ff: seq<Field>): (r: seq<nat>)
    ensures forall k :: 0 <= k < |r| ==> r[k] < |ff|
  {
    if ff == [] then []
    else VarFields(ff[..|ff| - 1]) + (if FixedFieldLen(ff[|ff| - 1]) > 0 then [] else [|ff| - 1])
  }

  function RequiredIDs(ff: seq<Field>): seq<nat> {
    if ff == [] then []
    else RequiredIDs(ff[..|ff| - 1]) + (if ff[|ff| - 1].spec == Required then [ff[|ff| - 1].id] else [])
  }

  /** Every entry of RequiredIDs is the ID of a required field. */
  lemma {:induction false} RequiredIsField(ff: seq<Field>, k: nat)
    requires k < |RequiredIDs(ff)|
    ensures exists i :: 0 <= i < |ff| && ff[i].spec == Required && ff[i].id == RequiredIDs(ff)[k]
  {
    var n := |ff| - 1;
    if k < |RequiredIDs(ff[..n])| {
      RequiredIsField(ff[..n], k);
      var i :| 0 <= i < n && ff[..n][i].spec == Required && ff[..n][i].id == RequiredIDs(ff[..n])[k];
      assert ff[i].spec == Required && ff[i].id == RequiredIDs(ff)[k];
    } else {
      assert ff[n].spec == Required && ff[n].id == RequiredIDs(ff)[k];
    }
  }

  /** RequiredIDs lists the ID of every required field. */
  lemma {:induction false} RequiredIsListed(ff: seq<Field>, i: nat)
    requires i < |ff| && ff[i].spec == Required
    ensures ff[i].id in RequiredIDs(ff)
  {
    hide Built;
    if i < |ff| - 1 {
      RequiredIsListed(ff[..|ff| - 1], i);
    }
  }

  /** What DoResolveFields guarantees about one field. */
  predicate ResolvedField(f: Field) {
    && FieldType(f.typ)
    && (f.typ.TPtr? ==> f.spec == Optional)
    && (f.noCopy ==> WireType(f.typ) == WT_STRING)
  }

  /** What DoResolveFields guarantees about all fields: valid, unique, sorted by ID. */
  ghost predicate Resolved(ff: seq<Field>) {
    && (forall i :: 0 <= i < |ff| ==> ResolvedField(ff[i]))
    && (forall i, j :: 0 <= i < j < |ff| ==> ff[i].id < ff[j].id)
  }

  /** fieldIdx maps exactly the IDs of the fields to their positions. */
  ghost predicate Indexed(ff: seq<Field>, maxID: nat, idx: seq<int>) {
    && |idx| == maxID + 1
    && (forall i :: 0 <= i < |ff| ==> ff[i].id <= maxID && idx[ff[i].id] == i)
    && (forall id :: 0 <= id < |idx| ==> -1 <= idx[id] < |ff| && (idx[id] >= 0 ==> ff[idx[id]].id == id))
  }

  ghost predicate Built(d: RawDesc) {
    && Resolved(d.fields)
    && d.maxID < 0xFFFF
    && Indexed(d.fields, d.maxID, d.fieldIdx)
    && d.fixedLen == SumFixed(d.fields)
    && d.varLen == VarFields(d.fields)
    && d.required == RequiredIDs(d.fields)
    && |d.init| == |d.fields|
  }

  type StructDesc = d: RawDesc | Built(d)
    witness Desc([], 0, [-1], 0, [], [], false, [], false)

  type Schema = map<Name, StructDesc>

  /** structDesc.GetField. */
  function GetField(sd: StructDesc, fid: nat): (r: Option<nat>)
    ensures r.Some? ==> r.value < |sd.fields| && sd.fields[r.value].id == fid
    ensures r.None? ==> forall i :: 0 <= i < |sd.fields| ==> sd.fields[i].id != fid
  {
    if fid > sd.maxID then None
    else if sd.fieldIdx[fid] < 0 then None
    else Some(sd.fieldIdx[fid])
  }

  /** The field that a header announces, if its wire type is the expected one. */
  function KnownField(sd: StructDesc, wt: Byte, fid: nat): (r: Option<nat>)
    ensures r.Some? ==> r.value < |sd.fields| && sd.fields[r.value].id == fid && WireType(sd.fields[r.value].typ) == wt
    ensures r.None? ==> forall i :: 0 <= i < |sd.fields| ==> sd.fields[i].id != fid || WireType(sd.fields[i].typ) != wt
  {
    match GetField(sd, fid)
    case None => None
    case Some(i) => if WireType(sd.fields[i].typ) == wt then Some(i) else None
  }

  lemma KnownFieldOf(sd: StructDesc, i: nat)
    requires i < |sd.fields|
    ensures KnownField(sd, WireType(sd.fields[i].typ), sd.fields[i].id) == Some(i)
  {
    assert sd.fieldIdx[sd.fields[i].id] == i;
  }

  /** A newly allocated struct after InitDefault. */
  function Fresh(sd: StructDesc): Value {
    Struct(sd.init, [])
  }

  // ----- Types without unknown names

  predicate NamesIn(S: Schema, t: Type) {
    match t
    case TPtr(e) => NamesIn(S, e)
    case TStruct(name) => name in S
    case TMap(k, v) => NamesIn(S, k) && NamesIn(S, v)
    case TSet(e) => NamesIn(S, e)
    case TList(e) => NamesIn(S, e)
    case _ => true
  }

  ghost predicate DescNamesIn(S: Schema, sd: StructDesc) {
    forall i :: 0 <= i < |sd.fields| ==> NamesIn(S, sd.fields[i].typ)
  }

  /** Every struct that a field mentions has a descriptor. */
  ghost predicate Closed(S: Schema) {
    forall n :: n in S ==> DescNamesIn(S, S[n])
  }

  lemma NamedIn(S: Schema, name: Name)
    requires Closed(S) && name in S
    ensures DescNamesIn(S, S[name])
  {
  }

  // ----- Which fields appendStruct leaves out

  predicate CanSkipIfNil(f: Field) {
    f.spec == Optional && (IsPointer(f.typ) || f.typ.TBinary? || f.typ.TMap? || f.typ.TSet? || f.typ.TList?)
  }

  predicate CanSkipIfDefault(sd: StructDesc, f: Field) {
    f.spec == Optional && !IsPointer(f.typ) && sd.hasInit
  }

  predicate Skipped(sd: StructDesc, i: nat, v: Value)
    requires i < |sd.fields|
  {
    var f := sd.fields[i];
    (CanSkipIfNil(f) && v.Nil?) || (CanSkipIfDefault(sd, f) && Equal(f.typ, sd.init[i], v))
  }
}
