/**
  The bytes that appendStruct and appendAny produce for a value (internal/reflect/append.go,
  append_list.go, append_map.go), as a function of the value.
 */
module Wire {
  import opened Common
  import opened BigEndian
  import opened Schema
  import opened Skip

  // ----- Well-formed values

  /** Complete fields that the struct does not know, as the decoder collects them. */
  predicate ValidUnknown(sd: StructDesc, b: seq<Byte>)
    decreases |b|
  {
    b == [] ||
    (|b| >= 3 && b[0] != STOP && KnownField(sd, b[0], Get16(b[1..])).None? &&
     match SkipValue(b[0], b[3..])
     case None => false
     case Some(n) => ValidUnknown(sd, b[3 + n..]))
  }

  /** `v` is a value of Go type `t`; every length fits in an int32. */
  ghost predicate Typed(S: Schema, t: Type, v: Value)
    decreases v, 1, t
  {
    match t
    case TString => v.Bytes? && |v.data| < TWO_31
    case TBinary => v.Nil? || (v.Bytes? && |v.data| < TWO_31)
    case TPtr(e) => v.Nil? || Typed(S, e, v)
    case TStruct(name) => name in S && (v.Nil? || TypedStruct(S, S[name], v))
    case TMap(kt, vt) =>
      v.Nil? ||
      (v.Map? && |v.entries| < TWO_31 && DistinctKeys(kt, v.entries) &&
       forall i :: 0 <= i < |v.entries| ==> Typed(S, kt, v.entries[i].key) && Typed(S, vt, v.entries[i].val))
    case TSet(e) => TypedList(S, e, v)
    case TList(e) => TypedList(S, e, v)
    case _ => v.Fixed? && FixedInRange(t, v.bits)
  }

  ghost predicate TypedList(S: Schema, e: Type, v: Value)
    decreases v, 0
  {
    v.Nil? ||
    (v.List? && |v.elems| < TWO_31 && forall i :: 0 <= i < |v.elems| ==> Typed(S, e, v.elems[i]))
  }

  ghost predicate TypedStruct(S: Schema, sd: StructDesc, v: Value)
    decreases v, 0
  {
    && v.Struct? && |v.fields| == |sd.fields|
    && (forall i :: 0 <= i < |v.fields| ==> Typed(S, sd.fields[i].typ, v.fields[i]))
    && ValidUnknown(sd, v.unknown)
    && (sd.hasUnknown || v.unknown == [])
  }

  /** A struct value with as many fields as its descriptor. */
  predicate Shaped(sd: StructDesc, v: Value) {
    v.Struct? && |v.fields| == |sd.fields|
  }

  // ----- Encoding

  function PutFixed(t: Type, bits: nat): (b: seq<Byte>)
    requires FixedSize(t) > 0
    ensures |b| == FixedSize(t)
  {
    match t
    case TBool => [bits % 0x100]
    case TByte => [bits % 0x100]
    case TI16 => Put16(bits)
    case TI32 => Put32(bits)
    case TEnum => Put32(bits)
    case TPtr(e) => PutFixed(e, bits)
    case TDouble => Put64(bits)
    case TI64 => Put64(bits)
  }

  function EncodeString(s: seq<Byte>): (b: seq<Byte>) {
    Put32(|s|) + s
  }

  function EncodeValue(S: Schema, t: Type, v: Value): (b: seq<Byte>)
    decreases v, 3, t
  {
    if FixedSize(t) > 0 then PutFixed(t, if v.Fixed? then v.bits else 0)
    else
      match t
      case TPtr(e) => EncodeValue(S, e, v)
      case TStruct(name) => if name in S && Shaped(S[name], v) then EncodeStruct(S, S[name], v) else [STOP]
      case TMap(kt, vt) => EncodeMap(S, kt, vt, v)
      case TSet(e) => EncodeList(S, e, v)
      case TList(e) => EncodeList(S, e, v)
      case TString => EncodeString(Content(v))
      case TBinary => EncodeString(Content(v))
  }

  function EncodeList(S: Schema, e: Type, v: Value): seq<Byte>
    decreases v, 2
  {
    if !v.List? then [WireType(e)] + Put32(0)
    else [WireType(e)] + Put32(|v.elems|) + EncodeElems(S, e, v, 0)
  }

  function EncodeElems(S: Schema, e: Type, v: Value, j: nat): seq<Byte>
    requires v.List? && j <= |v.elems|
    decreases v, 1, |v.elems| - j
  {
    if j == |v.elems| then [] else EncodeValue(S, e, v.elems[j]) + EncodeElems(S, e, v, j + 1)
  }

  function EncodeMap(S: Schema, kt: Type, vt: Type, v: Value): seq<Byte>
    decreases v, 2
  {
    if !v.Map? then [WireType(kt), WireType(vt)] + Put32(0)
    else [WireType(kt), WireType(vt)] + Put32(|v.entries|) + EncodeEntries(S, kt, vt, v, 0)
  }

  /** Scalars and strings: what the map writers handle without the functions of the type. */
  predicate Plain(t: Type) {
    FixedSize(t) > 0 || t.TString? || t.TBinary?
  }

  /** What a branch on a bool makes of the byte in memory. */
  function BoolBit(v: Value): nat {
    if v.Fixed? && v.bits != 0 then 1 else 0
  }

  /** A bool that is written by appendMapBool is a bool of Go, which is 0 or 1. */
  predicate GoBool(t: Type, v: Value, branch: bool) {
    branch && t.TBool? ==> v.Fixed? && v.bits <= 1
  }

  /** A key or value of a map. Between two plain types, a bool is written by appendMapBool. */
  function EncodePart(S: Schema, t: Type, v: Value, branch: bool): seq<Byte>
    decreases v, 4
  {
    if branch && t.TBool? then [BoolBit(v)] else EncodeValue(S, t, v)
  }

  function EncodeEntry(S: Schema, kt: Type, vt: Type, e: Entry): seq<Byte>
    decreases e, 0
  {
    var branch := Plain(kt) && Plain(vt);
    EncodePart(S, kt, e.key, branch) + EncodePart(S, vt, e.val, branch)
  }

  function EncodeEntries(S: Schema, kt: Type, vt: Type, v: Value, j: nat): seq<Byte>
    requires v.Map? && j <= |v.entries|
    decreases v, 1, |v.entries| - j
  {
    if j == |v.entries| then [] else EncodeEntry(S, kt, vt, v.entries[j]) + EncodeEntries(S, kt, vt, v, j + 1)
  }

  function FieldHeader(f: Field): (b: seq<Byte>)
    ensures |b| == 3
  {
    [WireType(f.typ)] + Put16(f.id)
  }

  /** Field `i`: nothing when it is left out. */
  function EncodeField(S: Schema, sd: StructDesc, i: nat, v: Value): seq<Byte>
    requires i < |sd.fields|
    decreases v, 4
  {
    if Skipped(sd, i, v) then [] else FieldHeader(sd.fields[i]) + EncodeValue(S, sd.fields[i].typ, v)
  }

  function EncodeFields(S: Schema, sd: StructDesc, v: Value, i: nat): seq<Byte>
    requires Shaped(sd, v) && i <= |sd.fields|
    decreases v, 1, |sd.fields| - i
  {
    if i == |sd.fields| then [] else EncodeField(S, sd, i, v.fields[i]) + EncodeFields(S, sd, v, i + 1)
  }

  function EncodeStruct(S: Schema, sd: StructDesc, v: Value): (b: seq<Byte>)
    requires Shaped(sd, v)
    decreases v, 2
  {
    EncodeFields(S, sd, v, 0) + (if sd.hasUnknown then v.unknown else []) + [STOP]
  }

  // ----- Behind the last one

  lemma NoMoreFields(S: Schema, sd: StructDesc, v: Value)
    requires Shaped(sd, v)
    ensures EncodeFields(S, sd, v, |sd.fields|) == []
  {
  }

  lemma NoMoreElems(S: Schema, e: Type, v: Value)
    requires v.List?
    ensures EncodeElems(S, e, v, |v.elems|) == []
  {
  }

  lemma NoMoreEntries(S: Schema, kt: Type, vt: Type, v: Value)
    requires v.Map?
    ensures EncodeEntries(S, kt, vt, v, |v.entries|) == []
  {
  }
}
