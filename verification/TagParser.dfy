/**
  Types in struct tags (internal/defs/types.go): the parser, which reads the type of a field
  from the tag along its Go type, and the textual form that types are cached by.
 */
module TagParser {
  import opened Common

  // ----- Go types

  datatype Kind =
    | KBool | KInt | KInt8 | KInt16 | KInt32 | KInt64
    | KUint | KUint8 | KUint16 | KUint32 | KUint64
    | KFloat32 | KFloat64 | KString | KOther

  /** reflect.Type; `name` is empty for a type without a name, `pkg` for a predeclared one. */
  datatype GoType =
    | Basic(kind: Kind, name: string, pkg: string)
    | Struct(name: string, pkg: string)
    | Slice(elem: GoType, name: string)
    | Map(key: GoType, val: GoType, name: string)
    | Array(elem: GoType, name: string)
    | Ptr(elem: GoType)

  const INT64 := Basic(KInt64, "int64", "")
  const BYTE := Basic(KUint8, "uint8", "")

  function NameOf(vt: GoType): string {
    if vt.Ptr? then "" else vt.name
  }

  // ----- Parsed types

  datatype Tag = T_bool | T_i8 | T_double | T_i16 | T_i32 | T_i64 | T_string | T_struct | T_map | T_enum | T_binary

  /** `S` is the Go type. */
  datatype Type =
    | Simple(tag: Tag, S: GoType)
    | MapOf(K: Type, V: Type, S: GoType)
    | SetOf(V: Type, S: GoType)
    | ListOf(V: Type, S: GoType)
    | PtrTo(V: Type, S: GoType)

  /** Type.String, the key under which newTType caches a type, beside S. */
  function String(t: Type): string {
    match t
    case Simple(tag, S) => if tag == T_struct then NameOf(S) else TagString(tag)
    case MapOf(k, v, _) => "map<" + String(k) + ":" + String(v) + ">"
    case SetOf(v, _) => "set<" + String(v) + ">"
    case ListOf(v, _) => "list<" + String(v) + ">"
    case PtrTo(v, _) => "*" + String(v)
  }

  function TagString(tag: Tag): string {
    match tag
    case T_bool => "bool"
    case T_i8 => "i8"
    case T_double => "double"
    case T_i16 => "i16"
    case T_i32 => "i32"
    case T_i64 => "i64"
    case T_string => "string"
    case T_struct => "struct"
    case T_map => "map"
    case T_enum => "enum"
    case T_binary => "binary"
  }

  /** keywordTab: what names a tag; for T_i8 there are two words. */
  function Keyword(tag: Tag): string {
    if tag == T_i8 then "i8 byte" else if tag == T_enum then "" else TagString(tag)
  }

  predicate IsPtrToStruct(t: Type) {
    t.PtrTo? && t.V.Simple? && t.V.tag == T_struct
  }

  predicate IsKeyType(t: Type) {
    (t.Simple? && t.tag !in {T_struct, T_map, T_binary}) || IsPtrToStruct(t)
  }

  predicate IsValueType(t: Type) {
    !t.PtrTo? || IsPtrToStruct(t)
  }

  // ----- Tokens

  /** unicode.IsSpace on one byte. */
  predicate IsSpace(c: char) {
    c == ' ' || '\t' <= c <= '\r' || c == '\U{85}' || c == '\U{A0}'
  }

  predicate IsIdent0(c: char) {
    c == '_' || 'a' <= c <= 'z' || 'A' <= c <= 'Z'
  }

  predicate IsIdent(c: char) {
    IsIdent0(c) || '0' <= c <= '9'
  }

  function Spaces(s: string): (n: nat)
    ensures n <= |s|
    ensures n < |s| ==> !IsSpace(s[n])
  {
    if s != "" && IsSpace(s[0]) then 1 + Spaces(s[1..]) else 0
  }

  function IdentLength(s: string): (n: nat)
    ensures n <= |s|
  {
    if s != "" && IsIdent(s[0]) then 1 + IdentLength(s[1..]) else 0
  }

  datatype Token = Token(text: string, n: nat)

  /** readToken: an identifier or one character, behind spaces; None at the end of `s`. */
  function ReadToken(s: string): (r: Option<Token>)
    ensures r.Some? ==> r.value.text != "" && 0 < r.value.n <= |s|
  {
    var p := Spaces(s);
    if p == |s| then None
    else
      var l := if IsIdent0(s[p]) then 1 + IdentLength(s[p + 1..]) else 1;
      Some(Token(s[p..p + l], p + l))
  }

  /** strings.Contains */
  predicate Contains(s: string, t: string) {
    exists i :: 0 <= i <= |s| && StandsAt(s, t, i)
  }

  predicate StandsAt(s: string, t: string, i: nat) {
    i + |t| <= |s| && s[i..i + |t|] == t
  }

  // ----- The parser. `s` is what follows the current position; a result says how much was read.

  /** Panic is the nil pointer that is followed for a pointer to a pointer. */
  datatype Parsed = Ok(t: Type, n: nat) | Err | Panic

  datatype Named = Name(tag: Tag, n: nat) | Mismatch

  /** The tag of a kind, if there is a Thrift type for it. int has 64 bits. */
  function KindTag(vt: GoType): Option<Tag> {
    match vt
    case Basic(k, _, _) =>
      (match k
       case KBool => Some(T_bool)
       case KInt => Some(T_i64)
       case KInt8 => Some(T_i8)
       case KInt16 => Some(T_i16)
       case KInt32 => Some(T_i32)
       case KInt64 => Some(T_i64)
       case KFloat64 => Some(T_double)
       case KString => Some(T_string)
       case _ => None)
    case Struct(_, _) => Some(T_struct)
    case Map(_, _, _) => Some(T_map)
    case Slice(e, _) => if e == BYTE then Some(T_binary) else None
    case Array(_, _) => None
    case Ptr(_) => None
  }

  /** doMatchStruct: Some(how far the name reaches) if it is the name of the type. */
  function MatchStruct(vt: GoType, s: string, tv: string): (r: Option<nat>)
    ensures r.Some? ==> r.value <= |s|
  {
    var tok := ReadToken(s);
    if NameOf(vt) == "" && vt.Struct? then Some(0)
    else if tok.None? || tok.value.text == ":" || tok.value.text == ">" then
      if NameOf(vt) == tv then Some(0) else None
    else if tok.value.text != "." then None
    else
      var q := ReadToken(s[tok.value.n..]);
      if q.None? || !IsIdent0(q.value.text[0]) then None
      else if NameOf(vt) == q.value.text then Some(tok.value.n + q.value.n) else None
  }

  /** The word for a type: part of its keyword, or its name; a named int64 is then an enum. */
  function ReadName(vt: GoType, tag: Tag, s: string): (r: Named)
    ensures r.Name? ==> r.n <= |s|
  {
    var tok := ReadToken(s);
    if tok.None? then Mismatch
    else if Contains(Keyword(tag), tok.value.text) then Name(tag, tok.value.n)
    else if !IsIdent0(tok.value.text[0]) then Mismatch
    else
      var m := MatchStruct(vt, s[tok.value.n..], tok.value.text);
      if m.None? then Mismatch
      else Name(if tag == T_i64 && vt != INT64 then T_enum else tag, tok.value.n + m.value)
  }

  /** One expected character; nothing is expected where there is no tag at all. */
  function Expect(tagged: bool, s: string, c: string): (r: Option<nat>)
    ensures r.Some? ==> r.value <= |s|
  {
    if !tagged then Some(0)
    else
      var tok := ReadToken(s);
      if tok.Some? && tok.value.text == c then Some(tok.value.n) else None
  }

  /** doParseType */
  function ParseType(vt: GoType, tagged: bool, s: string, allowPtrs: bool): (r: Parsed)
    ensures r.Ok? ==> r.n <= |s|
    decreases vt, 1
  {
    if vt.Ptr? then
      if !allowPtrs then Panic else Pointer(vt, ParseType(vt.elem, tagged, s, false))
    else if vt.Slice? && vt.elem != BYTE then
      if !tagged then Err else ParseSlice(vt, s)
    else if KindTag(vt).None? then Err
    else
      var name := if tagged then ReadName(vt, KindTag(vt).value, s) else Name(KindTag(vt).value, 0);
      if name.Mismatch? then Err
      else if !vt.Map? then Ok(Simple(name.tag, vt), name.n)
      else Shift(name.n, ParseMap(vt, tagged, s[name.n..]))
  }

  function Pointer(vt: GoType, r: Parsed): Parsed {
    if r.Ok? then Ok(PtrTo(r.t, vt), r.n) else r
  }

  /** `n` characters before what was parsed. */
  function Shift(n: nat, r: Parsed): Parsed {
    if r.Ok? then Ok(r.t, n + r.n) else r
  }

  /** Behind the word for a map. */
  function ParseMap(vt: GoType, tagged: bool, s: string): (r: Parsed)
    requires vt.Map?
    ensures r.Ok? ==> r.n <= |s|
    decreases vt, 0
  {
    var a := Expect(tagged, s, "<");
    if a.None? then Err
    else
      var k := ParseType(vt.key, tagged, s[a.value..], true);
      if !k.Ok? then k
      else if !IsKeyType(k.t) then Err
      else
        var i := a.value + k.n;
        var b := Expect(tagged, s[i..], ":");
        if b.None? then Err
        else
          var v := ParseType(vt.val, tagged, s[i + b.value..], true);
          if !v.Ok? then v
          else
            var j := i + b.value + v.n;
            var c := Expect(tagged, s[j..], ">");
            if c.None? || !IsValueType(v.t) then Err
            else Ok(MapOf(k.t, v.t, vt), j + c.value)
  }

  /** doParseSlice */
  function ParseSlice(vt: GoType, s: string): (r: Parsed)
    requires vt.Slice?
    ensures r.Ok? ==> r.n <= |s|
    decreases vt, 0
  {
    var tok := ReadToken(s);
    if tok.None? || (tok.value.text != "set" && tok.value.text != "list") then Err
    else
      var a := Expect(true, s[tok.value.n..], "<");
      if a.None? then Err
      else
        var i := tok.value.n + a.value;
        var v := ParseType(vt.elem, true, s[i..], true);
        if !v.Ok? then v
        else
          var c := Expect(true, s[i + v.n..], ">");
          if c.None? || !IsValueType(v.t) then Err
          else Ok(if tok.value.text == "set" then SetOf(v.t, vt) else ListOf(v.t, vt), i + v.n + c.value)
  }

  // ----- The tag that names a type

  /** The type as it is written in a tag: names of structs and enums, and no pointers. */
  function Print(t: Type): string {
    match t
    case Simple(tag, S) => if tag == T_struct || tag == T_enum then NameOf(S) else TagString(tag)
    case MapOf(k, v, _) => "map<" + Print(k) + ":" + Print(v) + ">"
    case SetOf(v, _) => "set<" + Print(v) + ">"
    case ListOf(v, _) => "list<" + Print(v) + ">"
    case PtrTo(v, _) => Print(v)
  }

  predicate Ident(w: string) {
    w != "" && IsIdent0(w[0]) && forall i :: 0 <= i < |w| ==> IsIdent(w[i])
  }

  /** A tag that a Go type other than a container can have. */
  predicate Fits(tag: Tag, vt: GoType) {
    !vt.Map? && (KindTag(vt) == Some(tag) || (tag == T_enum && KindTag(vt) == Some(T_i64) && vt != INT64))
  }

  /**
    `t` is a type over `vt` that a tag can name: structs and enums have names, and the name of
    an enum is no part of the word i64.
   */
  predicate Nameable(t: Type, vt: GoType, allowPtrs: bool) {
    t.S == vt &&
    match t
    case Simple(tag, _) =>
      && Fits(tag, vt)
      && (tag == T_struct || tag == T_enum ==> Ident(NameOf(vt)))
      && (tag == T_enum ==> !Contains("i64", NameOf(vt)))
    case MapOf(k, v, _) =>
      vt.Map? && Nameable(k, vt.key, true) && Nameable(v, vt.val, true) && IsKeyType(k) && IsValueType(v)
    case SetOf(v, _) => vt.Slice? && vt.elem != BYTE && Nameable(v, vt.elem, true) && IsValueType(v)
    case ListOf(v, _) => vt.Slice? && vt.elem != BYTE && Nameable(v, vt.elem, true) && IsValueType(v)
    case PtrTo(v, _) => vt.Ptr? && allowPtrs && Nameable(v, vt.elem, false)
  }

  /** What may stand behind a type: nothing, the colon behind a key, the end of a container. */
  predicate Follows(rest: string) {
    rest == "" || rest[0] == ':' || rest[0] == '>'
  }

  lemma NoIdentFollows(rest: string)
    requires Follows(rest)
    ensures rest == "" || (!IsIdent(rest[0]) && !IsSpace(rest[0]) && !IsIdent0(rest[0]))
  {
  }

  lemma {:induction false} WholeIdent(w: string, rest: string)
    requires forall i :: 0 <= i < |w| ==> IsIdent(w[i])
    requires rest == "" || !IsIdent(rest[0])
    ensures IdentLength(w + rest) == |w|
  {
    if w == "" {
      assert w + rest == rest;
    } else {
      assert (w + rest)[1..] == w[1..] + rest;
      WholeIdent(w[1..], rest);
    }
  }

  lemma ReadsIdent(w: string, rest: string)
    requires Ident(w) && (rest == "" || !IsIdent(rest[0]))
    ensures ReadToken(w + rest) == Some(Token(w, |w|))
  {
    var s := w + rest;
    assert s[0] == w[0] && Spaces(s) == 0;
    assert s[1..] == w[1..] + rest;
    WholeIdent(w[1..], rest);
    assert s[0..|w|] == w;
  }

  lemma ReadsSign(c: char, rest: string)
    requires !IsSpace(c) && !IsIdent0(c)
    ensures ReadToken([c] + rest) == Some(Token([c], 1))
  {
    var s := [c] + rest;
    assert s[0] == c && Spaces(s) == 0 && s[0..1] == [c];
  }

  /** The name of a type, where it is read as a name. */
  lemma MatchesName(vt: GoType, rest: string)
    requires Ident(NameOf(vt)) && Follows(rest)
    ensures MatchStruct(vt, rest, NameOf(vt)) == Some(0)
  {
    if rest != "" {
      assert rest == [rest[0]] + rest[1..];
      ReadsSign(rest[0], rest[1..]);
    }
  }

  lemma KeywordsAreWords(tag: Tag)
    ensures Ident(TagString(tag))
    ensures tag != T_enum ==> Contains(Keyword(tag), TagString(tag))
  {
    assert StandsAt(Keyword(tag), TagString(tag), 0) || tag == T_enum;
  }

  lemma ReadsKeyword(vt: GoType, tag: Tag, rest: string)
    requires tag != T_enum && (rest == "" || !IsIdent(rest[0]))
    ensures ReadName(vt, tag, TagString(tag) + rest) == Name(tag, |TagString(tag)|)
  {
    KeywordsAreWords(tag);
    ReadsIdent(TagString(tag), rest);
  }

  /** The name of a type is taken for a keyword if it is part of it. */
  lemma ReadsTypeName(vt: GoType, tag: Tag, rest: string)
    requires Ident(NameOf(vt)) && Follows(rest)
    ensures ReadName(vt, tag, NameOf(vt) + rest)
      == Name(if !Contains(Keyword(tag), NameOf(vt)) && tag == T_i64 && vt != INT64 then T_enum else tag, |NameOf(vt)|)
  {
    hide Contains, MatchStruct, Keyword;
    ReadsIdent(NameOf(vt), rest);
    MatchesName(vt, rest);
    assert (NameOf(vt) + rest)[|NameOf(vt)|..] == rest;
  }

  lemma ExpectsSign(c: char, rest: string)
    requires !IsSpace(c) && !IsIdent0(c)
    ensures Expect(true, [c] + rest, [c]) == Some(1)
  {
    ReadsSign(c, rest);
  }

  /** Behind `w`, at offset `i` of `s`, stands `rest`. */
  lemma Behind(s: string, i: nat, w: string, rest: string)
    requires i <= |s| && s[i..] == w + rest
    ensures i + |w| <= |s| && s[i + |w|..] == rest
  {
    assert s[i..][|w|..] == s[i + |w|..];
  }

  lemma MapSteps(vt: GoType, s: string, k: Type, nk: nat, v: Type, nv: nat)
    requires vt.Map? && 2 + nk + nv <= |s|
    requires Expect(true, s, "<") == Some(1) && ParseType(vt.key, true, s[1..], true) == Ok(k, nk)
    requires Expect(true, s[1 + nk..], ":") == Some(1) && ParseType(vt.val, true, s[2 + nk..], true) == Ok(v, nv)
    requires Expect(true, s[2 + nk + nv..], ">") == Some(1) && IsKeyType(k) && IsValueType(v)
    ensures ParseMap(vt, true, s) == Ok(MapOf(k, v, vt), 3 + nk + nv)
  {
    hide Expect, ParseType, IsKeyType, IsValueType;
  }

  lemma SliceSteps(vt: GoType, s: string, word: string, v: Type, nv: nat)
    requires vt.Slice? && 1 + |word| + nv <= |s|
    requires (word == "set" || word == "list") && ReadToken(s) == Some(Token(word, |word|))
    requires Expect(true, s[|word|..], "<") == Some(1) && ParseType(vt.elem, true, s[|word| + 1..], true) == Ok(v, nv)
    requires Expect(true, s[|word| + 1 + nv..], ">") == Some(1) && IsValueType(v)
    ensures ParseSlice(vt, s) == Ok(if word == "set" then SetOf(v, vt) else ListOf(v, vt), |word| + 2 + nv)
  {
    hide Expect, ParseType, ReadToken, IsValueType;
  }

  lemma TypeSteps(vt: GoType, s: string, allowPtrs: bool)
    ensures !vt.Ptr? && vt.Slice? && vt.elem != BYTE ==> ParseType(vt, true, s, allowPtrs) == ParseSlice(vt, s)
    ensures !vt.Ptr? && KindTag(vt).Some? && ReadName(vt, KindTag(vt).value, s).Name? ==>
      var name := ReadName(vt, KindTag(vt).value, s);
      ParseType(vt, true, s, allowPtrs)
      == if vt.Map? then Shift(name.n, ParseMap(vt, true, s[name.n..])) else Ok(Simple(name.tag, vt), name.n)
  {
    hide ReadName, ParseMap, ParseSlice;
  }

  /** Printing and parsing again gives the type back, and reads exactly what was printed. */
  lemma {:induction false} PrintParses(t: Type, vt: GoType, rest: string, allowPtrs: bool)
    requires Nameable(t, vt, allowPtrs) && Follows(rest)
    ensures ParseType(vt, true, Print(t) + rest, allowPtrs) == Ok(t, |Print(t)|)
    decreases t, 1
  {
    hide ReadName, ParseMap, ParseSlice, Contains;
    match t
    case Simple(tag, _) =>
      TypeSteps(vt, Print(t) + rest, allowPtrs);
      if tag == T_struct || tag == T_enum {
        ReadsTypeName(vt, KindTag(vt).value, rest);
      } else {
        ReadsKeyword(vt, tag, rest);
      }
    case PtrTo(v, _) => PrintParses(v, vt.elem, rest, false);
    case SetOf(v, _) => SlicePrints(t, vt, "set", rest, allowPtrs);
    case ListOf(v, _) => SlicePrints(t, vt, "list", rest, allowPtrs);
    case MapOf(k, v, _) => MapPrints(t, vt, rest, allowPtrs);
  }

  // The rest of a container type, from one of its tokens on.
  function FromEnd(rest: string): string {
    ">" + rest
  }

  function FromColon(v: string, rest: string): string {
    ":" + (v + FromEnd(rest))
  }

  function FromOpen(inner: string): string {
    "<" + inner
  }

  lemma SliceText(word: string, v: string, rest: string)
    ensures var s := word + FromOpen(v + FromEnd(rest));
      && s == word + "<" + v + ">" + rest
      && |s| == |word| + |v| + 2 + |rest|
      && s[|word|..] == FromOpen(v + FromEnd(rest))
      && s[|word| + 1..] == v + FromEnd(rest)
      && s[|word| + 1 + |v|..] == FromEnd(rest)
  {
    var s2 := v + FromEnd(rest);
    var s := word + FromOpen(s2);
    Behind(s, 0, word, FromOpen(s2));
    Behind(s, |word|, "<", s2);
    Behind(s, |word| + 1, v, FromEnd(rest));
  }

  lemma MapText(k: string, v: string, rest: string)
    ensures var s := FromOpen(k + FromColon(v, rest));
      && "map" + s == "map<" + k + ":" + v + ">" + rest
      && |s| == 3 + |k| + |v| + |rest|
      && s[1..] == k + FromColon(v, rest)
      && s[1 + |k|..] == FromColon(v, rest)
      && s[2 + |k|..] == v + FromEnd(rest)
      && s[2 + |k| + |v|..] == FromEnd(rest)
  {
    var s := FromOpen(k + FromColon(v, rest));
    Behind(s, 0, "<", k + FromColon(v, rest));
    Behind(s, 1, k, FromColon(v, rest));
    Behind(s, 1 + |k|, ":", v + FromEnd(rest));
    Behind(s, 2 + |k|, v, FromEnd(rest));
  }

  lemma ExpectsSigns(inner: string, v: string, rest: string)
    ensures Expect(true, FromOpen(inner), "<") == Some(1)
    ensures Expect(true, FromColon(v, rest), ":") == Some(1) && Follows(FromColon(v, rest))
    ensures Expect(true, FromEnd(rest), ">") == Some(1) && Follows(FromEnd(rest))
    ensures FromOpen(inner) != "" && !IsIdent(FromOpen(inner)[0])
  {
    ExpectsSign('<', inner);
    ExpectsSign(':', v + FromEnd(rest));
    ExpectsSign('>', rest);
  }

  lemma MapParts(t: Type, vt: GoType, allowPtrs: bool)
    requires t.MapOf? && Nameable(t, vt, allowPtrs)
    ensures vt.Map? && t == MapOf(t.K, t.V, vt) && KindTag(vt) == Some(T_map)
    ensures Nameable(t.K, vt.key, true) && Nameable(t.V, vt.val, true) && IsKeyType(t.K) && IsValueType(t.V)
    ensures Print(t) == "map<" + Print(t.K) + ":" + Print(t.V) + ">"
    ensures |Print(t)| == 6 + |Print(t.K)| + |Print(t.V)|
  {
    hide IsKeyType, IsValueType;
  }

  lemma {:induction false} MapPrints(t: Type, vt: GoType, rest: string, allowPtrs: bool)
    requires t.MapOf? && Nameable(t, vt, allowPtrs)
    ensures ParseType(vt, true, Print(t) + rest, allowPtrs) == Ok(t, |Print(t)|)
    decreases t, 0
  {
    hide Expect, ReadName, ParseType, ParseMap, FromEnd, FromColon, FromOpen, Nameable, Print, IsKeyType;
    hide IsValueType, KindTag;
    MapParts(t, vt, allowPtrs);
    var k, v := Print(t.K), Print(t.V);
    var s := FromOpen(k + FromColon(v, rest));
    MapText(k, v, rest);
    ExpectsSigns(k + FromColon(v, rest), v, rest);
    PrintParses(t.K, vt.key, FromColon(v, rest), true);
    PrintParses(t.V, vt.val, FromEnd(rest), true);
    MapSteps(vt, s, t.K, |k|, t.V, |v|);
    ReadsKeyword(vt, T_map, s);
    DropPrefix("map", s);
    TypeSteps(vt, "map" + s, allowPtrs);
  }

  lemma {:induction false} SlicePrints(t: Type, vt: GoType, word: string, rest: string, allowPtrs: bool)
    requires (t.SetOf? && word == "set") || (t.ListOf? && word == "list")
    requires Nameable(t, vt, allowPtrs)
    ensures ParseType(vt, true, Print(t) + rest, allowPtrs) == Ok(t, |Print(t)|)
    decreases t, 0
  {
    hide Expect, ReadToken, ParseType, ParseSlice, FromEnd, FromOpen;
    var v := Print(t.V);
    var s := word + FromOpen(v + FromEnd(rest));
    SliceText(word, v, rest);
    assert "set" + "<" == "set<" && "list" + "<" == "list<";
    ExpectsSigns(v + FromEnd(rest), v, rest);
    PrintParses(t.V, vt.elem, FromEnd(rest), true);
    ReadsIdent(word, FromOpen(v + FromEnd(rest)));
    SliceSteps(vt, s, word, t.V, |v|);
    TypeSteps(vt, s, allowPtrs);
  }

  /** The same for a whole tag. */
  lemma PrintParsesWhole(t: Type, vt: GoType)
    requires Nameable(t, vt, true)
    ensures ParseType(vt, Print(t) != "", Print(t), true) == Ok(t, |Print(t)|)
  {
    hide ParseType;
    PrintsSomething(t, vt, true);
    PrintParses(t, vt, "", true);
    assert Print(t) + "" == Print(t);
  }

  lemma {:induction false} PrintsSomething(t: Type, vt: GoType, allowPtrs: bool)
    requires Nameable(t, vt, allowPtrs)
    ensures Print(t) != ""
  {
    if t.PtrTo? {
      PrintsSomething(t.V, vt.elem, false);
    }
  }

  /**
    What the name of a type of kind int64 parses to: an enum, unless the type is the
    predeclared int64 itself or the name is part of "i64".
   */
  lemma EnumParses(name: string, pkg: string, rest: string, allowPtrs: bool)
    requires Ident(name) && Follows(rest)
    ensures var vt := Basic(KInt64, name, pkg);
      ParseType(vt, true, name + rest, allowPtrs) == Ok(Simple(T_enum, vt), |name|)
      <==> !Contains("i64", name) && !(name == "int64" && pkg == "")
  {
    hide ReadName, Contains;
    var vt := Basic(KInt64, name, pkg);
    ReadsTypeName(vt, T_i64, rest);
    TypeSteps(vt, name + rest, allowPtrs);
  }

  /** An enum named i is taken for a plain i64. */
  lemma EnumNamedI(pkg: string, rest: string)
    requires Follows(rest)
    ensures var vt := Basic(KInt64, "i", pkg); ParseType(vt, true, "i" + rest, true) == Ok(Simple(T_i64, vt), 1)
  {
    hide ReadName;
    var vt := Basic(KInt64, "i", pkg);
    assert StandsAt("i64", "i", 0);
    ReadsTypeName(vt, T_i64, rest);
    TypeSteps(vt, "i" + rest, true);
  }

  // ----- The cache key

  /** `t` has the shape that the parser gives to types over `vt`. */
  predicate Over(t: Type, vt: GoType) {
    t.S == vt &&
    match t
    case Simple(tag, _) => Fits(tag, vt)
    case MapOf(k, v, _) => vt.Map? && Over(k, vt.key) && Over(v, vt.val)
    case SetOf(v, _) => vt.Slice? && vt.elem != BYTE && Over(v, vt.elem)
    case ListOf(v, _) => vt.Slice? && vt.elem != BYTE && Over(v, vt.elem)
    case PtrTo(v, _) => vt.Ptr? && Over(v, vt.elem)
  }

  lemma {:induction false} ParsedIsOver(vt: GoType, tagged: bool, s: string, allowPtrs: bool)
    ensures var r := ParseType(vt, tagged, s, allowPtrs); r.Ok? ==> Over(r.t, vt)
    decreases vt, 1
  {
    hide Contains, ReadToken, Expect, MatchStruct, IsKeyType, IsValueType;
    if vt.Ptr? {
      if allowPtrs {
        ParsedIsOver(vt.elem, tagged, s, false);
      }
    } else if vt.Slice? && vt.elem != BYTE {
      if tagged {
        SliceIsOver(vt, s);
      }
    } else if KindTag(vt).Some? && vt.Map? {
      var name := if tagged then ReadName(vt, KindTag(vt).value, s) else Name(KindTag(vt).value, 0);
      if name.Name? {
        MapIsOver(vt, tagged, s[name.n..]);
      }
    }
  }

  lemma {:induction false} MapIsOver(vt: GoType, tagged: bool, s: string)
    requires vt.Map?
    ensures var r := ParseMap(vt, tagged, s); r.Ok? ==> Over(r.t, vt)
    decreases vt, 0
  {
    hide ParseType, Expect, IsKeyType, IsValueType;
    var a := Expect(tagged, s, "<");
    if a.Some? {
      ParsedIsOver(vt.key, tagged, s[a.value..], true);
      var k := ParseType(vt.key, tagged, s[a.value..], true);
      if k.Ok? {
        var i := a.value + k.n;
        var b := Expect(tagged, s[i..], ":");
        if b.Some? {
          ParsedIsOver(vt.val, tagged, s[i + b.value..], true);
        }
      }
    }
  }

  lemma {:induction false} SliceIsOver(vt: GoType, s: string)
    requires vt.Slice? && vt.elem != BYTE
    ensures var r := ParseSlice(vt, s); r.Ok? ==> Over(r.t, vt)
    decreases vt, 0
  {
    hide ParseType, Expect, ReadToken, IsValueType;
    var tok := ReadToken(s);
    if tok.Some? {
      var a := Expect(true, s[tok.value.n..], "<");
      if a.Some? {
        ParsedIsOver(vt.elem, true, s[tok.value.n + a.value..], true);
      }
    }
  }

  /** No textual form of a type over `vt` is the beginning of another one. */
  lemma {:induction false} StringPrefixFree(vt: GoType, a: Type, b: Type, x: string, y: string)
    requires Over(a, vt) && Over(b, vt) && String(a) + x == String(b) + y
    ensures a == b && x == y
    decreases vt
  {
    match vt
    case Ptr(e) =>
      Peel("*", String(a.V), x, String(b.V), y);
      StringPrefixFree(e, a.V, b.V, x, y);
    case Map(kt, et, _) =>
      MapPrefixFree(vt, a, b, x, y);
    case Slice(e, _) =>
      if e == BYTE {
        Cancel("binary", x, y);
      } else {
        SlicePrefixFree(vt, a, b, x, y);
      }
    case Struct(name, _) => Cancel(name, x, y);
    case Basic(_, _, _) => SimplePrefixFree(a.tag, b.tag, vt, x, y);
    case Array(_, _) =>
  }

  lemma Cancel(w: string, x: string, y: string)
    requires w + x == w + y
    ensures x == y
  {
    assert (w + x)[|w|..] == x && (w + y)[|w|..] == y;
  }

  lemma Peel(w: string, a: string, x: string, b: string, y: string)
    requires w + a + x == w + b + y
    ensures a + x == b + y
  {
    Assoc(w, a, x);
    Assoc(w, b, y);
    Cancel(w, a + x, b + y);
  }

  lemma SimplePrefixFree(a: Tag, b: Tag, vt: GoType, x: string, y: string)
    requires vt.Basic? && Fits(a, vt) && Fits(b, vt) && TagString(a) + x == TagString(b) + y
    ensures a == b && x == y
  {
    assert (TagString(a) + x)[0] == (TagString(b) + y)[0];
    assert TagString(T_i64)[0] == 'i' && TagString(T_enum)[0] == 'e';
    Cancel(TagString(a), x, y);
  }

  lemma SliceString(word: string, v: string, x: string)
    ensures word + v + ">" + x == word + (v + (">" + x))
  {
  }

  lemma MapString(k: string, v: string, x: string)
    ensures "map<" + k + ":" + v + ">" + x == "map<" + (k + (":" + (v + (">" + x))))
  {
  }

  lemma {:induction false} SlicePrefixFree(vt: GoType, a: Type, b: Type, x: string, y: string)
    requires vt.Slice? && vt.elem != BYTE && Over(a, vt) && Over(b, vt) && String(a) + x == String(b) + y
    ensures a == b && x == y
    decreases vt, 0
  {
    var v, w := String(a.V), String(b.V);
    assert (String(a) + x)[0] == (String(b) + y)[0];
    assert "set<"[0] == 's' && "list<"[0] == 'l';
    var word := if a.SetOf? then "set<" else "list<";
    SliceString(word, v, x);
    SliceString(word, w, y);
    Cancel(word, v + (">" + x), w + (">" + y));
    StringPrefixFree(vt.elem, a.V, b.V, ">" + x, ">" + y);
    Cancel(">", x, y);
  }

  lemma {:induction false} MapPrefixFree(vt: GoType, a: Type, b: Type, x: string, y: string)
    requires vt.Map? && Over(a, vt) && Over(b, vt) && String(a) + x == String(b) + y
    ensures a == b && x == y
    decreases vt, 0
  {
    var va := String(a.V) + (">" + x);
    var vb := String(b.V) + (">" + y);
    MapString(String(a.K), String(a.V), x);
    MapString(String(b.K), String(b.V), y);
    Cancel("map<", String(a.K) + (":" + va), String(b.K) + (":" + vb));
    StringPrefixFree(vt.key, a.K, b.K, ":" + va, ":" + vb);
    Cancel(":", va, vb);
    StringPrefixFree(vt.val, a.V, b.V, ">" + x, ">" + y);
    Cancel(">", x, y);
  }

  /**
    Types are cached by their Go type and their textual form. Whatever tags they were parsed
    from, two types with the same key are the same type, so that a cached type has the wire
    format of the one it stands for.
   */
  lemma CacheKeyIsSound(vt: GoType, s: string, t: string, p: bool, q: bool)
    requires ParseType(vt, s != "", s, p).Ok? && ParseType(vt, t != "", t, q).Ok?
    requires String(ParseType(vt, s != "", s, p).t) == String(ParseType(vt, t != "", t, q).t)
    ensures ParseType(vt, s != "", s, p).t == ParseType(vt, t != "", t, q).t
  {
    hide ParseType, Over, String;
    ParsedIsOver(vt, s != "", s, p);
    ParsedIsOver(vt, t != "", t, q);
    StringPrefixFree(vt, ParseType(vt, s != "", s, p).t, ParseType(vt, t != "", t, q).t, "", "");
  }
}
