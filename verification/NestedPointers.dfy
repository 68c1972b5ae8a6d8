/**
  Where the parser of struct tags panics (internal/defs/types.go). A pointer to a pointer is
  to be refused, but the error is made from a type that has not been set yet. It is decided
  here for which Go types this happens, with which tags, and with none.
 */
module NestedPointers {
  import opened Common
  import opened TagParser

  /** A Go type of map keys: a scalar, a string or a pointer to a struct. */
  predicate Keyable(vt: GoType) {
    (vt.Basic? && KindTag(vt).Some?) || (vt.Ptr? && vt.elem.Struct?)
  }

  /**
    The parser can get to a pointer where none is allowed. Without a tag it refuses slices,
    and it looks at the values of a map only behind a key that it accepts.
   */
  predicate Reaches(vt: GoType, tagged: bool, allowPtrs: bool) {
    match vt
    case Ptr(e) => !allowPtrs || Reaches(e, tagged, false)
    case Slice(e, _) => tagged && e != BYTE && Reaches(e, tagged, true)
    case Map(k, v, _) => Reaches(k, tagged, true) || (Keyable(k) && Reaches(v, tagged, true))
    case _ => false
  }

  /** No pointer to a pointer, wherever it is. */
  predicate NoNestedPtr(vt: GoType) {
    match vt
    case Ptr(e) => !e.Ptr? && NoNestedPtr(e)
    case Slice(e, _) => NoNestedPtr(e)
    case Map(k, v, _) => NoNestedPtr(k) && NoNestedPtr(v)
    case Array(e, _) => NoNestedPtr(e)
    case _ => true
  }

  lemma {:induction false} NothingReached(vt: GoType, tagged: bool, allowPtrs: bool)
    requires NoNestedPtr(vt) && (allowPtrs || !vt.Ptr?)
    ensures !Reaches(vt, tagged, allowPtrs)
    decreases vt
  {
    match vt
    case Ptr(e) => NothingReached(e, tagged, false);
    case Slice(e, _) => NothingReached(e, tagged, true);
    case Map(k, v, _) => NothingReached(k, tagged, true); NothingReached(v, tagged, true);
    case _ =>
  }

  lemma KeyTypeIsKeyable(t: Type, vt: GoType)
    requires Over(t, vt) && IsKeyType(t)
    ensures Keyable(vt)
  {
  }

  // ----- A panic comes from a pointer that was reached.

  lemma {:induction false} PanicIsReached(vt: GoType, tagged: bool, s: string, allowPtrs: bool)
    requires ParseType(vt, tagged, s, allowPtrs).Panic?
    ensures Reaches(vt, tagged, allowPtrs)
    decreases vt, 1
  {
    hide ReadName, ParseMap, ParseSlice, KindTag;
    if vt.Ptr? {
      if allowPtrs {
        PanicIsReached(vt.elem, tagged, s, false);
      }
    } else if vt.Slice? && vt.elem != BYTE {
      SlicePanicIsReached(vt, s);
    } else if vt.Map? {
      var name := if tagged then ReadName(vt, KindTag(vt).value, s) else Name(KindTag(vt).value, 0);
      MapPanicIsReached(vt, tagged, s[name.n..]);
    }
  }

  lemma {:induction false} MapPanicIsReached(vt: GoType, tagged: bool, s: string)
    requires vt.Map? && ParseMap(vt, tagged, s).Panic?
    ensures Reaches(vt, tagged, true)
    decreases vt, 0
  {
    hide ParseType, Expect, IsKeyType, IsValueType, Keyable, Over;
    var a := Expect(tagged, s, "<").value;
    var k := ParseType(vt.key, tagged, s[a..], true);
    if k.Panic? {
      PanicIsReached(vt.key, tagged, s[a..], true);
    } else {
      ParsedIsOver(vt.key, tagged, s[a..], true);
      KeyTypeIsKeyable(k.t, vt.key);
      var i := a + k.n;
      PanicIsReached(vt.val, tagged, s[i + Expect(tagged, s[i..], ":").value..], true);
    }
  }

  lemma {:induction false} SlicePanicIsReached(vt: GoType, s: string)
    requires vt.Slice? && vt.elem != BYTE && ParseSlice(vt, s).Panic?
    ensures Reaches(vt, true, true)
    decreases vt, 0
  {
    hide ParseType, Expect, ReadToken, IsValueType;
    var n := ReadToken(s).value.n;
    PanicIsReached(vt.elem, true, s[n + Expect(true, s[n..], "<").value..], true);
  }

  // ----- Without a tag

  lemma UntaggedKey(vt: GoType, s: string)
    requires Keyable(vt)
    ensures var r := ParseType(vt, false, s, true); r.Ok? && r.n == 0 && IsKeyType(r.t)
  {
    if vt.Ptr? {
      assert ParseType(vt.elem, false, s, false) == Ok(Simple(T_struct, vt.elem), 0);
    }
  }

  /** Without a tag, the Go type alone decides. */
  lemma {:induction false} UntaggedPanics(vt: GoType, s: string, allowPtrs: bool)
    ensures ParseType(vt, false, s, allowPtrs).Panic? <==> Reaches(vt, false, allowPtrs)
    decreases vt
  {
    hide ParseType, IsKeyType, IsValueType, Keyable;
    if ParseType(vt, false, s, allowPtrs).Panic? {
      PanicIsReached(vt, false, s, allowPtrs);
    } else {
      UntaggedSteps(vt, s, allowPtrs);
      match vt
      case Ptr(e) => UntaggedPanics(e, s, false);
      case Map(k, v, _) =>
        UntaggedPanics(k, s, true);
        UntaggedPanics(v, s, true);
        if Keyable(k) {
          UntaggedKey(k, s);
        }
      case _ =>
    }
  }

  lemma UntaggedSteps(vt: GoType, s: string, allowPtrs: bool)
    ensures vt.Ptr? ==>
      (ParseType(vt, false, s, allowPtrs).Panic? <==> !allowPtrs || ParseType(vt.elem, false, s, false).Panic?)
    ensures vt.Map? ==> var k := ParseType(vt.key, false, s, true);
      ParseType(vt, false, s, allowPtrs).Panic?
      <==> k.Panic? || (k.Ok? && IsKeyType(k.t) && ParseType(vt.val, false, s[k.n..], true).Panic?)
  {
    hide IsKeyType, IsValueType;
    assert s[0..] == s;
    if vt.Map? {
      var k := ParseType(vt.key, false, s, true);
      if k.Ok? {
        assert s[k.n + 0..] == s[k.n..];
      }
    }
  }

  // ----- A tag for every type that reaches a nested pointer

  function KeyTag(vt: GoType): string
    requires Keyable(vt)
  {
    if vt.Ptr? then "struct" else TagString(KindTag(vt).value)
  }

  lemma KeyTagParses(vt: GoType, rest: string)
    requires Keyable(vt)
    ensures var r := ParseType(vt, true, KeyTag(vt) + ":" + rest, true);
      r.Ok? && r.n == |KeyTag(vt)| && IsKeyType(r.t)
  {
    hide ReadName, Contains;
    var s := ":" + rest;
    Assoc(KeyTag(vt), ":", rest);
    if vt.Ptr? {
      ReadsKeyword(vt.elem, T_struct, s);
      TypeSteps(vt.elem, "struct" + s, false);
    } else {
      ReadsKeyword(vt, KindTag(vt).value, s);
      TypeSteps(vt, KeyTag(vt) + s, true);
    }
  }

  /** A tag that leads the parser to the nested pointer. It ends where it has got there. */
  function Trap(vt: GoType): string {
    match vt
    case Ptr(e) => if e.Ptr? then "*" else Trap(e)
    case Slice(e, _) => "list" + FromOpen(Trap(e))
    case Map(k, v, _) =>
      "map" + FromOpen(if Keyable(k) && !Reaches(k, true, true) then KeyTag(k) + ":" + Trap(v) else Trap(k))
    case _ => "*"
  }

  lemma OpensAt(word: string, inner: string)
    requires Ident(word)
    ensures var s := word + FromOpen(inner);
      && ReadToken(s) == Some(Token(word, |word|))
      && s[|word|..] == FromOpen(inner)
      && Expect(true, FromOpen(inner), "<") == Some(1)
      && FromOpen(inner)[1..] == inner
      && s[|word| + 1..] == inner
      && !IsIdent(FromOpen(inner)[0])
  {
    ExpectsSign('<', inner);
    ReadsIdent(word, FromOpen(inner));
    DropPrefix(word, FromOpen(inner));
  }

  lemma SliceTrap(vt: GoType, inner: string, allowPtrs: bool)
    requires vt.Slice? && vt.elem != BYTE && ParseType(vt.elem, true, inner, true).Panic?
    ensures ParseType(vt, true, "list" + FromOpen(inner), allowPtrs).Panic?
  {
    hide ParseType, ReadToken, Expect, FromOpen;
    OpensAt("list", inner);
    TypeSteps(vt, "list" + FromOpen(inner), allowPtrs);
  }

  /** Behind the bracket, the key panics, or it is read and the value panics. */
  lemma MapTrap(vt: GoType, inner: string, v: string, allowPtrs: bool)
    requires vt.Map?
    requires var k := ParseType(vt.key, true, inner, true);
      k.Panic? || (k.Ok? && IsKeyType(k.t) && inner[k.n..] == ":" + v && ParseType(vt.val, true, v, true).Panic?)
    ensures ParseType(vt, true, "map" + FromOpen(inner), allowPtrs).Panic?
  {
    hide ParseType, ParseMap, ReadName, ReadToken, Expect, FromOpen, IsKeyType;
    MapBodyTrap(vt, inner, v);
    var s := FromOpen(inner);
    ExpectsSigns(inner, "", "");
    ReadsKeyword(vt, T_map, s);
    DropPrefix("map", s);
    TypeSteps(vt, "map" + s, allowPtrs);
  }

  lemma MapBodyTrap(vt: GoType, inner: string, v: string)
    requires vt.Map?
    requires var k := ParseType(vt.key, true, inner, true);
      k.Panic? || (k.Ok? && IsKeyType(k.t) && inner[k.n..] == ":" + v && ParseType(vt.val, true, v, true).Panic?)
    ensures ParseMap(vt, true, FromOpen(inner)).Panic?
  {
    hide ParseType, ReadToken, Expect, FromOpen, IsKeyType;
    OpensAt("map", inner);
    var k := ParseType(vt.key, true, inner, true);
    if k.Ok? {
      var s := FromOpen(inner);
      ExpectsSign(':', v);
      DropDrop(s, 1, k.n);
      DropDrop(s, 1 + k.n, 1);
    }
  }

  lemma {:induction false} TrapPanics(vt: GoType, allowPtrs: bool)
    requires Reaches(vt, true, allowPtrs)
    ensures ParseType(vt, true, Trap(vt), allowPtrs).Panic?
    decreases vt
  {
    hide FromOpen, Keyable, ParseType;
    match vt
    case Ptr(e) =>
      PointerSteps(vt, Trap(vt), allowPtrs);
      if e.Ptr? {
        PointerSteps(e, Trap(vt), false);
      } else if allowPtrs {
        TrapPanics(e, false);
      }
    case Slice(e, _) =>
      TrapPanics(e, true);
      SliceTrap(vt, Trap(e), allowPtrs);
    case Map(k, v, _) =>
      if Reaches(k, true, true) {
        TrapPanics(k, true);
        MapTrap(vt, Trap(k), "", allowPtrs);
      } else {
        TrapPanics(v, true);
        KeyTagParses(k, Trap(v));
        BehindKey(KeyTag(k), Trap(v));
        MapTrap(vt, KeyTag(k) + ":" + Trap(v), Trap(v), allowPtrs);
      }
  }

  lemma PointerSteps(vt: GoType, s: string, allowPtrs: bool)
    requires vt.Ptr?
    ensures ParseType(vt, true, s, allowPtrs).Panic? <==> !allowPtrs || ParseType(vt.elem, true, s, false).Panic?
  {
  }

  lemma BehindKey(k: string, v: string)
    ensures (k + ":" + v)[|k|..] == ":" + v
  {
  }

  // ----- The results

  lemma TrapIsATag(vt: GoType)
    ensures Trap(vt) != ""
  {
  }

  lemma {:induction false} TagsReachMore(vt: GoType, allowPtrs: bool)
    requires Reaches(vt, false, allowPtrs)
    ensures Reaches(vt, true, allowPtrs)
    decreases vt
  {
    hide Keyable;
    match vt
    case Ptr(e) => if allowPtrs { TagsReachMore(e, false); }
    case Map(k, v, _) => if Reaches(k, false, true) { TagsReachMore(k, true); } else { TagsReachMore(v, true); }
    case _ =>
  }

  /** ParseType with the tag `s`; an empty one is no tag. */
  predicate TagPanics(vt: GoType, s: string) {
    ParseType(vt, s != "", s, true).Panic?
  }

  /**
    There is a tag on which the parser panics for a Go type if and only if it can get to a
    pointer to a pointer in it. Without a tag it panics if and only if it gets there without.
   */
  lemma PanicsIff(vt: GoType)
    ensures (exists s :: TagPanics(vt, s)) <==> Reaches(vt, true, true)
    ensures TagPanics(vt, "") <==> Reaches(vt, false, true)
  {
    hide ParseType, Reaches, Trap;
    UntaggedPanics(vt, "", true);
    if Reaches(vt, true, true) {
      TrapPanics(vt, true);
      TrapIsATag(vt);
      assert TagPanics(vt, Trap(vt));
    }
    if s: string :| TagPanics(vt, s) {
      PanicIsReached(vt, s != "", s, true);
      if s == "" {
        TagsReachMore(vt, true);
      }
    }
  }

  /** Without a pointer to a pointer every tag is safe; for a field that is one, none is. */
  lemma NestedPointerPanics(vt: GoType, e: GoType, s: string)
    ensures NoNestedPtr(vt) ==> !TagPanics(vt, s)
    ensures TagPanics(Ptr(Ptr(e)), s)
  {
    assert ParseType(Ptr(e), s != "", s, false).Panic?;
    hide ParseType;
    if NoNestedPtr(vt) {
      NothingReached(vt, s != "", true);
      if TagPanics(vt, s) {
        PanicIsReached(vt, s != "", s, true);
      }
    }
  }
}
