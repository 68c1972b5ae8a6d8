/**
  Which fields appendStruct leaves out (internal/reflect/append.go, internal/reflect/desc.go),
  told by the bytes on the wire and by what Go programs see of a value: an optional field that
  is nil, and an optional field without a pointer that holds its default.
 */
module Omission {
  import opened Common
  import opened Schema
  import opened Wire
  import opened MapLaws

  /** Field `i` of a struct takes no bytes. */
  predicate LeftOut(S: Schema, sd: StructDesc, i: nat, v: Value)
    requires i < |sd.fields|
  {
    EncodeField(S, sd, i, v) == []
  }

  lemma LeftOutIsSkipped(S: Schema, sd: StructDesc, i: nat, v: Value)
    requires i < |sd.fields|
    ensures LeftOut(S, sd, i, v) <==> Skipped(sd, i, v)
    ensures LeftOut(S, sd, i, v) || EncodeField(S, sd, i, v) == FieldHeader(sd.fields[i]) +
                                                                EncodeValue(S, sd.fields[i].typ, v)
  {
    hide EncodeValue, Skipped, Built;
  }

  /** What is written of a field has its wire type, its ID and its value, in this order. */
  lemma HeaderOnWire(S: Schema, sd: StructDesc, i: nat, v: Value)
    requires i < |sd.fields| && !LeftOut(S, sd, i, v)
    ensures var f := sd.fields[i];
      && f.id < 0xFFFF
      && EncodeField(S, sd, i, v)
         == [WireType(f.typ), f.id / 256, f.id % 256] + EncodeValue(S, f.typ, v)
  {
    hide EncodeValue, Skipped, WireType;
    LeftOutIsSkipped(S, sd, i, v);
    assert sd.fields[i].id <= sd.maxID;
  }

  /** A field that is not optional is always written. */
  lemma OthersAreWritten(S: Schema, sd: StructDesc, i: nat, v: Value)
    requires i < |sd.fields| && sd.fields[i].spec != Optional
    ensures !LeftOut(S, sd, i, v) && |EncodeField(S, sd, i, v)| >= 3
  {
    hide EncodeValue;
  }

  /** An optional field that is nil takes no bytes, whatever its type. */
  lemma NilIsLeftOut(S: Schema, sd: StructDesc, i: nat, v: Value)
    requires i < |sd.fields| && sd.fields[i].spec == Optional && Typed(S, sd.fields[i].typ, v) && v.Nil?
    ensures LeftOut(S, sd, i, v)
  {
    hide EncodeValue;
  }

  /**
    Go's == of a scalar or string with its default, by bit patterns and bytes. A nil []byte has
    no bytes. Slices, maps and structs are never taken to be equal.
   */
  predicate HoldsDefault(t: Type, d: Value, v: Value) {
    match t
    case TDouble =>
      && d.Fixed? && v.Fixed?
      && ((d == v && !BeyondInf(v.bits)) || (d.bits in {0, SIGN} && v.bits in {0, SIGN}))
    case TString => BytesOf(d) == BytesOf(v)
    case TBinary => BytesOf(d) == BytesOf(v)
    case TStruct(_) => false
    case TMap(_, _) => false
    case TSet(_) => false
    case TList(_) => false
    case TPtr(_) => false
    case _ => d.Fixed? && d == v
  }

  function BytesOf(v: Value): seq<Byte> {
    match v
    case Bytes(d) => d
    case _ => []
  }

  /** Another optional field is left out if and only if it is no pointer and holds the default. */
  lemma DefaultIsLeftOut(S: Schema, sd: StructDesc, i: nat, v: Value)
    requires i < |sd.fields| && sd.fields[i].spec == Optional && Typed(S, sd.fields[i].typ, v) && !v.Nil?
    requires sd.hasInit ==> Typed(S, sd.fields[i].typ, sd.init[i])
    ensures LeftOut(S, sd, i, v) <==> sd.hasInit && HoldsDefault(sd.fields[i].typ, sd.init[i], v)
  {
    hide EncodeValue;
    var t, d := sd.fields[i].typ, sd.init[i];
    LeftOutIsSkipped(S, sd, i, v);
    if t.TDouble? && sd.hasInit {
      FloatEquality(d.bits, v.bits);
    }
  }

  /** All three cases: exactly the fields that are left out. */
  lemma LeftOutExactly(S: Schema, sd: StructDesc, i: nat, v: Value)
    requires i < |sd.fields| && Typed(S, sd.fields[i].typ, v)
    requires sd.hasInit ==> Typed(S, sd.fields[i].typ, sd.init[i])
    ensures LeftOut(S, sd, i, v)
      <==> sd.fields[i].spec == Optional && (v.Nil? || (sd.hasInit && HoldsDefault(sd.fields[i].typ, sd.init[i], v)))
  {
    hide LeftOut, HoldsDefault, Typed;
    if sd.fields[i].spec != Optional {
      OthersAreWritten(S, sd, i, v);
    } else if v.Nil? {
      NilIsLeftOut(S, sd, i, v);
    } else {
      DefaultIsLeftOut(S, sd, i, v);
    }
  }
}
