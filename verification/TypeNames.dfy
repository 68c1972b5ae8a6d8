/**
  Names of types in struct tags (doParseType and doMatchStruct in internal/defs/types.go): a
  word in the place of a type is accepted if and only if it is part of the keyword of the kind,
  or the name of the Go type, with or without a package in front of it.
 */
module TypeNames {
  import opened Common
  import opened TagParser

  /** A type with a name of its own: an enum, if it is of kind int64. */
  function NamedTag(vt: GoType, tag: Tag): Tag {
    if tag == T_i64 && !(vt.Basic? && vt.kind == KInt64 && vt.name == "int64" && vt.pkg == "") then T_enum else tag
  }

  /** A package, a dot and a name. */
  function Qualified(p: string, w: string): string {
    p + ("." + w)
  }

  lemma NotIdents()
    ensures !IsSpace('.') && !IsIdent0('.') && !IsIdent('.')
    ensures !IsSpace(':') && !IsIdent0(':') && !IsIdent(':')
    ensures !IsSpace('>') && !IsIdent0('>') && !IsIdent('>')
  {
  }

  /** What doMatchStruct reads behind a package: the dot and one identifier. */
  lemma MatchesBehindDot(vt: GoType, p: string, w: string, rest: string)
    requires NameOf(vt) != "" && Ident(w) && Follows(rest)
    ensures MatchStruct(vt, "." + w + rest, p) == if w == NameOf(vt) then Some(1 + |w|) else None
  {
    hide ReadToken, IsIdent, IsIdent0, IsSpace;
    NotIdents();
    NoIdentFollows(rest);
    Assoc(".", w, rest);
    ReadsSign('.', w + rest);
    ReadsIdent(w, rest);
    DropPrefix(".", w + rest);
    assert IsIdent0(w[0]);
  }

  lemma MatchesWord(vt: GoType, w: string, rest: string)
    requires NameOf(vt) != "" && Ident(w) && Follows(rest)
    ensures MatchStruct(vt, rest, w) == if w == NameOf(vt) then Some(0) else None
  {
    if rest != "" {
      NoIdentFollows(rest);
      assert rest == [rest[0]] + rest[1..];
      ReadsSign(rest[0], rest[1..]);
    }
  }

  lemma QualifiedText(p: string, w: string, rest: string)
    requires Ident(p)
    ensures var s := Qualified(p, w) + rest;
      && s == p + ("." + w + rest)
      && s[|p|..] == "." + w + rest
      && ReadToken(s) == Some(Token(p, |p|))
      && IsIdent0(p[0])
  {
    hide ReadToken, IsIdent, IsIdent0, IsSpace;
    NotIdents();
    var t := "." + w + rest;
    assert t[0] == '.';
    assert Qualified(p, w) + rest == p + t;
    ReadsIdent(p, t);
    DropPrefix(p, t);
    assert IsIdent0(p[0]);
  }

  /**
    A qualified name in the place of a type that has a name. A package that is part of the
    keyword is taken for the keyword; otherwise the name behind the dot decides.
   */
  lemma ReadsQualified(vt: GoType, tag: Tag, p: string, w: string, rest: string)
    requires NameOf(vt) != "" && Ident(p) && Ident(w) && Follows(rest)
    ensures ReadName(vt, tag, Qualified(p, w) + rest)
      == if Contains(Keyword(tag), p) then Name(tag, |p|)
         else if w == NameOf(vt) then Name(NamedTag(vt, tag), |Qualified(p, w)|)
         else Mismatch
  {
    hide ReadToken, MatchStruct, Contains, Keyword, IsIdent, IsIdent0, IsSpace;
    QualifiedText(p, w, rest);
    MatchesBehindDot(vt, p, w, rest);
  }

  /** One word in the place of a type that has a name. */
  lemma ReadsWord(vt: GoType, tag: Tag, w: string, rest: string)
    requires NameOf(vt) != "" && Ident(w) && Follows(rest)
    ensures ReadName(vt, tag, w + rest)
      == if Contains(Keyword(tag), w) then Name(tag, |w|)
         else if w == NameOf(vt) then Name(NamedTag(vt, tag), |w|)
         else Mismatch
  {
    hide ReadToken, MatchStruct, Contains, Keyword, IsIdent;
    NoIdentFollows(rest);
    ReadsIdent(w, rest);
    DropPrefix(w, rest);
    MatchesWord(vt, w, rest);
  }

  /** The kinds whose types are named by one word: all but slices, maps and pointers. */
  predicate NamedKind(vt: GoType, tag: Tag) {
    !vt.Map? && !vt.Slice? && KindTag(vt) == Some(tag) && NameOf(vt) != ""
  }

  lemma ParsesName(vt: GoType, tag: Tag, s: string, allowPtrs: bool)
    requires NamedKind(vt, tag)
    ensures ParseType(vt, true, s, allowPtrs)
      == match ReadName(vt, tag, s)
         case Mismatch => Err
         case Name(t, n) => Ok(Simple(t, vt), n)
  {
    hide ReadName;
  }

  /**
    A qualified name is parsed to its end if and only if the name behind the dot is that of the
    Go type, provided that the package is no part of the keyword; any other name is refused.
   */
  lemma QualifiedParses(vt: GoType, tag: Tag, p: string, w: string, rest: string, allowPtrs: bool)
    requires NamedKind(vt, tag) && Ident(p) && Ident(w) && Follows(rest) && !Contains(Keyword(tag), p)
    ensures ParseType(vt, true, Qualified(p, w) + rest, allowPtrs)
      == if w == NameOf(vt) then Ok(Simple(NamedTag(vt, tag), vt), |p| + 1 + |w|) else Err
  {
    hide ParseType, ReadName, Contains;
    ReadsQualified(vt, tag, p, w, rest);
    ParsesName(vt, tag, Qualified(p, w) + rest, allowPtrs);
  }

  /** The same for a name without a package. */
  lemma WordParses(vt: GoType, tag: Tag, w: string, rest: string, allowPtrs: bool)
    requires NamedKind(vt, tag) && Ident(w) && Follows(rest) && !Contains(Keyword(tag), w)
    ensures ParseType(vt, true, w + rest, allowPtrs)
      == if w == NameOf(vt) then Ok(Simple(NamedTag(vt, tag), vt), |w|) else Err
  {
    hide ParseType, ReadName, Contains;
    ReadsWord(vt, tag, w, rest);
    ParsesName(vt, tag, w + rest, allowPtrs);
  }

  /** A struct by its qualified name: `struct` is its keyword. */
  lemma QualifiedStruct(name: string, pkg: string, p: string, w: string, rest: string, allowPtrs: bool)
    requires name != "" && Ident(p) && Ident(w) && Follows(rest) && !Contains("struct", p)
    ensures ParseType(Struct(name, pkg), true, Qualified(p, w) + rest, allowPtrs)
      == if w == name then Ok(Simple(T_struct, Struct(name, pkg)), |p| + 1 + |w|) else Err
  {
    hide ParseType, Contains;
    QualifiedParses(Struct(name, pkg), T_struct, p, w, rest, allowPtrs);
  }

  /** An enum by its qualified name: its keyword is that of int64. */
  lemma QualifiedEnum(name: string, pkg: string, p: string, w: string, rest: string, allowPtrs: bool)
    requires name != "" && (name != "int64" || pkg != "")
    requires Ident(p) && Ident(w) && Follows(rest) && !Contains("i64", p)
    ensures var vt := Basic(KInt64, name, pkg);
      ParseType(vt, true, Qualified(p, w) + rest, allowPtrs)
      == if w == name then Ok(Simple(T_enum, vt), |p| + 1 + |w|) else Err
  {
    hide ParseType, Contains;
    QualifiedParses(Basic(KInt64, name, pkg), T_i64, p, w, rest, allowPtrs);
  }

  /** A struct type without a name accepts any word, and a package alone in front of a dot. */
  lemma AnonymousStruct(pkg: string, w: string, rest: string, allowPtrs: bool)
    requires Ident(w) && (Follows(rest) || rest[0] == '.')
    ensures ParseType(Struct("", pkg), true, w + rest, allowPtrs) == Ok(Simple(T_struct, Struct("", pkg)), |w|)
  {
    hide ReadToken, Contains, IsIdent;
    NotIdents();
    assert rest == "" || !IsIdent(rest[0]);
    ReadsIdent(w, rest);
  }
}
