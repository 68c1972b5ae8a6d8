/**
  What the codec makes of a Go type with a tag, end to end: the type that newTType derives
  from a parsed type has the size in memory of the Go type, and the wire type that the Thrift
  Binary Protocol gives to what the tag names.
 */
module Layout {
  import opened Common
  import opened Schema
  import opened FastPaths
  import FT = FieldTypes
  import TP = TagParser

  /** Size of a Go type on a 64-bit machine. Structs and arrays have none of their own here. */
  function SizeInMemory(vt: TP.GoType): nat {
    match vt
    case Basic(kind, _, _) =>
      (match kind
       case KBool => 1
       case KInt8 => 1
       case KUint8 => 1
       case KInt16 => 2
       case KUint16 => 2
       case KInt32 => 4
       case KUint32 => 4
       case KFloat32 => 4
       case KString => 16
       case _ => 8)
    case Slice(_, _) => 24
    case Map(_, _, _) => 8
    case Ptr(_) => 8
    case Struct(_, _) => 0
    case Array(_, _) => 0
  }

  /** The types of the Thrift Binary Protocol. */
  function ThriftCode(t: TP.Type): nat {
    match t
    case Simple(tag, _) =>
      (match tag
       case T_bool => 2
       case T_i8 => 3
       case T_double => 4
       case T_i16 => 6
       case T_i32 => 8
       case T_i64 => 10
       case T_string => 11
       case T_binary => 11
       case T_struct => 12
       case T_map => 13
       case T_enum => 8)
    case MapOf(_, _, _) => 13
    case SetOf(_, _) => 14
    case ListOf(_, _) => 15
    case PtrTo(v, _) => ThriftCode(v)
  }

  /** Bytes of a scalar on the wire by the protocol; 0 for types of varying length. */
  function ScalarBytesOf(code: nat): nat {
    if code == 2 || code == 3 then 1
    else if code == 6 then 2
    else if code == 8 then 4
    else if code == 4 || code == 10 then 8
    else 0
  }

  predicate ByValueStruct(t: TP.Type) {
    t.Simple? && t.tag == TP.T_struct
  }

  lemma SimpleLayout(t: TP.Type, vt: TP.GoType)
    requires t.Simple? && TP.Over(t, vt) && FT.WellFormed(t)
    ensures WireType(FT.ToType(t)) == ThriftCode(t)
    ensures !ByValueStruct(t) ==> GoSize(FT.ToType(t)) == SizeInMemory(vt)
    ensures ByValueStruct(t) ==> vt.Struct?
    ensures FixedSize(FT.ToType(t)) == ScalarBytesOf(ThriftCode(t))
  {
  }

  /** A type over a Go type that the parser returns: size, wire type and length on the wire. */
  lemma {:induction false} LayoutOf(t: TP.Type, vt: TP.GoType)
    requires TP.Over(t, vt) && FT.WellFormed(t)
    ensures WireType(FT.ToType(t)) == ThriftCode(t)
    ensures !vt.Struct? ==> GoSize(FT.ToType(t)) == SizeInMemory(vt)
    ensures FixedSize(FT.ToType(t)) == ScalarBytesOf(ThriftCode(t))
    decreases t
  {
    if t.Simple? {
      hide TP.Over, FT.WellFormed, FT.ToType, ThriftCode, SizeInMemory;
      SimpleLayout(t, vt);
    } else {
      hide ScalarBytesOf;
      assert ScalarBytesOf(13) == ScalarBytesOf(14) == ScalarBytesOf(15) == ScalarBytesOf(12) == 0 by {
        ContainersVary();
      }
      if t.PtrTo? {
        LayoutOf(t.V, vt.elem);
      }
    }
  }

  lemma ContainersVary()
    ensures ScalarBytesOf(13) == ScalarBytesOf(14) == ScalarBytesOf(15) == ScalarBytesOf(12) == 0
  {
  }

  /** The parts of a type are the types of its parts; a pointer to a struct is that struct. */
  predicate PartsMatch(t: TP.Type) {
    match t
    case MapOf(k, v, _) => FT.ToType(t) == TMap(FT.ToType(k), FT.ToType(v)) && PartsMatch(k) && PartsMatch(v)
    case SetOf(v, _) => FT.ToType(t) == TSet(FT.ToType(v)) && PartsMatch(v)
    case ListOf(v, _) => FT.ToType(t) == TList(FT.ToType(v)) && PartsMatch(v)
    case PtrTo(v, _) =>
      if ByValueStruct(v) then FT.ToType(t) == TStruct(FT.StructName(v.S))
      else FT.ToType(t) == TPtr(FT.ToType(v)) && PartsMatch(v)
    case Simple(tag, _) => true
  }

  lemma {:induction false} PartsAreMapped(t: TP.Type)
    ensures PartsMatch(t)
    decreases t
  {
    match t
    case PtrTo(v, _) => PartsAreMapped(v);
    case MapOf(k, v, _) => PartsAreMapped(k); PartsAreMapped(v);
    case SetOf(v, _) => PartsAreMapped(v);
    case ListOf(v, _) => PartsAreMapped(v);
    case Simple(_, _) =>
  }

  /** For every Go type and every tag that is parsed. */
  lemma ParsedLayout(vt: TP.GoType, s: string)
    requires TP.ParseType(vt, s != "", s, true).Ok?
    ensures var p := TP.ParseType(vt, s != "", s, true).t;
      var t := FT.ToType(p);
      && WireType(t) == ThriftCode(p)
      && (!vt.Struct? ==> GoSize(t) == SizeInMemory(vt))
      && FixedSize(t) == ScalarBytesOf(ThriftCode(p))
      && PartsMatch(p)
  {
    hide TP.ParseType, FT.ToType, PartsMatch;
    var p := TP.ParseType(vt, s != "", s, true).t;
    TP.ParsedIsOver(vt, s != "", s, true);
    FT.ParsedIsWellFormed(vt, s != "", s, true);
    LayoutOf(p, vt);
    PartsAreMapped(p);
  }

  /** The words set and list give the wire types 14 and 15. */
  lemma SliceWords(vt: TP.GoType, s: string)
    requires vt.Slice? && vt.elem != TP.BYTE && s != "" && TP.ParseType(vt, true, s, true).Ok?
    ensures TP.ReadToken(s).Some? && TP.ReadToken(s).value.text in {"set", "list"}
    ensures WireType(FT.ToType(TP.ParseType(vt, true, s, true).t))
      == if TP.ReadToken(s).value.text == "set" then 14 else 15
  {
    hide TP.ReadToken, TP.Expect, TP.IsValueType;
  }

  /** Struct types of different packages or names have different names in a schema. */
  lemma StructNamesDiffer(name1: string, pkg1: string, name2: string, pkg2: string)
    requires '.' !in name1 && '.' !in name2
    requires FT.StructName(TP.Struct(name1, pkg1)) == FT.StructName(TP.Struct(name2, pkg2))
    ensures name1 == name2 && pkg1 == pkg2
  {
    var s := FT.StructName(TP.Struct(name1, pkg1));
    if |pkg1| < |pkg2| {
      DotInside(pkg1, name1, pkg2, name2);
    } else if |pkg2| < |pkg1| {
      DotInside(pkg2, name2, pkg1, name1);
    } else {
      assert s[..|pkg1|] == pkg1 && s[..|pkg2|] == pkg2;
      assert s[|pkg1| + 1..] == name1 && s[|pkg2| + 1..] == name2;
    }
  }

  lemma DotInside(p: string, n: string, q: string, m: string)
    requires p + "." + n == q + "." + m && |p| < |q|
    ensures '.' in n
  {
    var s := p + "." + n;
    assert s[|q|] == (q + "." + m)[|q|] == '.';
    assert n[|q| - |p| - 1] == s[|q|];
  }

  // ----- Words for scalars

  /** The kinds that have a Thrift type, and the words for it in a tag. */
  function WordsFor(kind: TP.Kind): seq<string> {
    match kind
    case KBool => ["bool"]
    case KInt => ["i64"]
    case KInt8 => ["i8", "byte"]
    case KInt16 => ["i16"]
    case KInt32 => ["i32"]
    case KInt64 => ["i64"]
    case KFloat64 => ["double"]
    case KString => ["string"]
    case _ => []
  }

  /** Without a tag, exactly these kinds of scalars are accepted. */
  lemma ScalarKinds(kind: TP.Kind, name: string, pkg: string, s: string, allowPtrs: bool)
    ensures TP.ParseType(TP.Basic(kind, name, pkg), false, s, allowPtrs).Ok? <==> WordsFor(kind) != []
  {
  }

  /** The Thrift type of each kind. */
  function CodeOf(kind: TP.Kind): nat {
    match kind
    case KBool => 2
    case KInt8 => 3
    case KInt16 => 6
    case KInt32 => 8
    case KInt => 10
    case KInt64 => 10
    case KFloat64 => 4
    case _ => 11
  }

  /** Each of these words is accepted for its kind, and gives a type of the kind's own size. */
  lemma ScalarWords(kind: TP.Kind, name: string, pkg: string, k: nat, rest: string, allowPtrs: bool)
    requires k < |WordsFor(kind)| && TP.Follows(rest)
    ensures var vt := TP.Basic(kind, name, pkg);
      var r := TP.ParseType(vt, true, WordsFor(kind)[k] + rest, allowPtrs);
      && r.Ok? && r.n == |WordsFor(kind)[k]|
      && GoSize(FT.ToType(r.t)) == SizeInMemory(vt) && WireType(FT.ToType(r.t)) == CodeOf(kind)
  {
    hide TP.ParseType, TP.ReadName, TP.Contains, TP.Keyword, TP.Ident, WordsFor;
    WordIsPart(kind, k);
    var vt := TP.Basic(kind, name, pkg);
    var tag := TP.KindTag(TP.Basic(kind, "", "")).value;
    WordReads(vt, tag, WordsFor(kind)[k], rest);
    TP.TypeSteps(vt, WordsFor(kind)[k] + rest, allowPtrs);
    CodesAgree(kind, tag, vt);
  }

  lemma WordReads(vt: TP.GoType, tag: TP.Tag, w: string, rest: string)
    requires TP.Ident(w) && TP.Follows(rest) && TP.Contains(TP.Keyword(tag), w)
    ensures TP.ReadName(vt, tag, w + rest) == TP.Name(tag, |w|)
  {
    hide TP.ReadToken, TP.Contains, TP.IsIdent, TP.MatchStruct, TP.Keyword;
    TP.NoIdentFollows(rest);
    TP.ReadsIdent(w, rest);
  }

  lemma CodesAgree(kind: TP.Kind, tag: TP.Tag, vt: TP.GoType)
    requires TP.KindTag(TP.Basic(kind, "", "")) == Some(tag) && vt.Basic? && vt.kind == kind
    ensures TP.KindTag(vt) == Some(tag)
    ensures var t := FT.ToType(TP.Simple(tag, vt)); GoSize(t) == SizeInMemory(vt) && WireType(t) == CodeOf(kind)
  {
  }

  lemma WordIsPart(kind: TP.Kind, k: nat)
    requires k < |WordsFor(kind)|
    ensures var tag := TP.KindTag(TP.Basic(kind, "", ""));
      && tag.Some? && TP.Ident(WordsFor(kind)[k])
      && TP.Contains(TP.Keyword(tag.value), WordsFor(kind)[k])
  {
    assert TP.KindTag(TP.Basic(kind, "", "")).Some?;
    var tag := TP.KindTag(TP.Basic(kind, "", "")).value;
    assert TP.StandsAt(TP.Keyword(tag), WordsFor(kind)[k], if k == 0 then 0 else 3);
  }
}
