/**
  From the type that the tag parser returns (defs.Type) to the type that the codec works with
  (newTType in internal/reflect/ttype.go), and which of the parsed types the codec treats
  uniformly.
 */
module FieldTypes {
  import opened Schema
  import TP = TagParser

  /** The name under which a schema lists a struct type. */
  function StructName(vt: TP.GoType): Name {
    if vt.Struct? then vt.pkg + "." + vt.name else ""
  }

  /**
    A pointer to a struct is what the codec calls a struct. A struct held by value has the same
    wire type and is written here as a pointer that no field type allows.
   */
  function ToType(t: TP.Type): Type {
    match t
    case Simple(tag, S) =>
      (match tag
       case T_bool => TBool
       case T_i8 => TByte
       case T_double => TDouble
       case T_i16 => TI16
       case T_i32 => TI32
       case T_i64 => TI64
       case T_string => TString
       case T_enum => TEnum
       case T_binary => TBinary
       case _ => TPtr(TStruct(StructName(S))))
    case MapOf(k, v, _) => TMap(ToType(k), ToType(v))
    case SetOf(v, _) => TSet(ToType(v))
    case ListOf(v, _) => TList(ToType(v))
    case PtrTo(v, _) => if TP.IsPtrToStruct(t) then TStruct(StructName(v.S)) else TPtr(ToType(v))
  }

  // ----- What the parser makes sure of

  /** Keys and values are of the kinds allowed, and no pointer leads to a pointer. */
  predicate WellFormed(t: TP.Type) {
    match t
    case Simple(tag, _) => tag != TP.T_map
    case MapOf(k, v, _) => TP.IsKeyType(k) && TP.IsValueType(v) && WellFormed(k) && WellFormed(v)
    case SetOf(v, _) => TP.IsValueType(v) && WellFormed(v)
    case ListOf(v, _) => TP.IsValueType(v) && WellFormed(v)
    case PtrTo(v, _) => !v.PtrTo? && WellFormed(v)
  }

  lemma {:induction false} ParsedIsWellFormed(vt: TP.GoType, tagged: bool, s: string, allowPtrs: bool)
    requires TP.ParseType(vt, tagged, s, allowPtrs).Ok?
    ensures var t := TP.ParseType(vt, tagged, s, allowPtrs).t; WellFormed(t) && (t.PtrTo? ==> allowPtrs)
    decreases vt, 1
  {
    hide TP.ReadName, TP.ParseMap, TP.ParseSlice;
    if vt.Ptr? {
      ParsedIsWellFormed(vt.elem, tagged, s, false);
    } else if vt.Slice? && vt.elem != TP.BYTE {
      SliceIsWellFormed(vt, s);
    } else if vt.Map? {
      var name := if tagged then TP.ReadName(vt, TP.T_map, s) else TP.Name(TP.T_map, 0);
      MapIsWellFormed(vt, tagged, s[name.n..]);
    } else {
      NameKeepsKind(vt, s);
    }
  }

  lemma NameKeepsKind(vt: TP.GoType, s: string)
    requires TP.KindTag(vt).Some? && !vt.Map?
    ensures var name := TP.ReadName(vt, TP.KindTag(vt).value, s); name.Name? ==> name.tag != TP.T_map
  {
    hide TP.ReadToken, TP.Contains, TP.MatchStruct;
  }

  lemma {:induction false} MapIsWellFormed(vt: TP.GoType, tagged: bool, s: string)
    requires vt.Map? && TP.ParseMap(vt, tagged, s).Ok?
    ensures var t := TP.ParseMap(vt, tagged, s).t; WellFormed(t) && !t.PtrTo?
    decreases vt, 0
  {
    hide TP.ParseType, TP.Expect, TP.IsKeyType, TP.IsValueType;
    var a := TP.Expect(tagged, s, "<").value;
    var i := a + TP.ParseType(vt.key, tagged, s[a..], true).n;
    var b := TP.Expect(tagged, s[i..], ":").value;
    ParsedIsWellFormed(vt.key, tagged, s[a..], true);
    ParsedIsWellFormed(vt.val, tagged, s[i + b..], true);
  }

  lemma {:induction false} SliceIsWellFormed(vt: TP.GoType, s: string)
    requires vt.Slice? && vt.elem != TP.BYTE && TP.ParseSlice(vt, s).Ok?
    ensures var t := TP.ParseSlice(vt, s).t; WellFormed(t) && !t.PtrTo?
    decreases vt, 0
  {
    hide TP.ParseType, TP.Expect, TP.ReadToken, TP.IsValueType;
    var n := TP.ReadToken(s).value.n;
    var a := TP.Expect(true, s[n..], "<").value;
    ParsedIsWellFormed(vt.elem, true, s[n + a..], true);
  }

  // ----- What the codec treats uniformly

  /** Pointers lead to scalars, strings or structs, and no struct is held by value. */
  predicate Uniform(t: TP.Type) {
    match t
    case Simple(tag, _) => tag != TP.T_struct
    case MapOf(k, v, _) => Uniform(k) && Uniform(v)
    case SetOf(v, _) => Uniform(v)
    case ListOf(v, _) => Uniform(v)
    case PtrTo(v, _) => v.Simple? && v.tag != TP.T_binary
  }

  lemma SimpleTypes(t: TP.Type)
    requires t.Simple? && WellFormed(t)
    ensures ElemType(ToType(t)) <==> t.tag != TP.T_struct
    ensures IsKeyType(ToType(t)) <==> TP.IsKeyType(t)
    ensures FixedSize(ToType(t)) > 0 || ToType(t).TString? <==> t.tag != TP.T_struct && t.tag != TP.T_binary
  {
  }

  /** Parts of containers: scalars and strings are never behind pointers there. */
  lemma {:induction false} PartsUniform(t: TP.Type)
    requires WellFormed(t) && TP.IsValueType(t)
    ensures ElemType(ToType(t)) <==> Uniform(t)
    decreases t, 0
  {
    match t
    case Simple(_, _) => SimpleTypes(t);
    case MapOf(k, v, _) => KeysUniform(k); PartsUniform(v);
    case SetOf(v, _) => PartsUniform(v);
    case ListOf(v, _) => PartsUniform(v);
    case PtrTo(_, _) =>
  }

  lemma {:induction false} KeysUniform(t: TP.Type)
    requires WellFormed(t) && TP.IsKeyType(t)
    ensures Uniform(t) && ElemType(ToType(t)) && IsKeyType(ToType(t))
    decreases t, 0
  {
    if t.Simple? {
      SimpleTypes(t);
    }
  }

  /** Of the types that the parser returns, the codec treats exactly these uniformly. */
  lemma FieldTypeIffUniform(t: TP.Type)
    requires WellFormed(t)
    ensures FieldType(ToType(t)) <==> Uniform(t)
  {
    if t.PtrTo? && !TP.IsPtrToStruct(t) {
      if t.V.Simple? {
        SimpleTypes(t.V);
      }
    } else {
      PartsUniform(t);
    }
  }

  /** A type that is parsed from a tag. */
  lemma ParsedFieldType(vt: TP.GoType, s: string)
    requires TP.ParseType(vt, s != "", s, true).Ok?
    ensures var t := TP.ParseType(vt, s != "", s, true).t; FieldType(ToType(t)) <==> Uniform(t)
  {
    hide TP.ParseType, ToType, Uniform;
    ParsedIsWellFormed(vt, s != "", s, true);
    FieldTypeIffUniform(TP.ParseType(vt, s != "", s, true).t);
  }
}
