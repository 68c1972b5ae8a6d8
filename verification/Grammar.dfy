/**
  The language of types in struct tags (internal/defs/types.go): which sequences of tokens
  spell a type over a Go type, and that the parser accepts these and no others. Spaces in front
  of tokens do not matter.
 */
module Grammar {
  import opened Common
  import opened TagParser

  // ----- Tokens

  /** The first `n` characters of `s` are the tokens `w`, with spaces in front of them. */
  predicate Reads(s: string, w: seq<string>, n: nat)
    decreases |w|
  {
    if w == [] then n == 0
    else
      var tok := ReadToken(s);
      && tok.Some? && tok.value.text == w[0] && tok.value.n <= n
      && Reads(s[tok.value.n..], w[1..], n - tok.value.n)
  }

  lemma {:induction false} ReadsWithin(s: string, w: seq<string>, n: nat)
    requires Reads(s, w, n)
    ensures n <= |s| && forall k :: 0 <= k < |w| ==> w[k] != ""
    decreases |w|
  {
    hide ReadToken;
    if w != [] {
      ReadsWithin(s[ReadToken(s).value.n..], w[1..], n - ReadToken(s).value.n);
    }
  }

  lemma {:induction false} ReadsBoth(s: string, a: seq<string>, n: nat, b: seq<string>, m: nat)
    requires Reads(s, a, n) && n <= |s| && Reads(s[n..], b, m)
    ensures Reads(s, a + b, n + m)
    decreases |a|
  {
    hide ReadToken;
    ReadsWithin(s, a, n);
    if a == [] {
      assert a + b == b && s[0..] == s;
    } else {
      var k := ReadToken(s).value.n;
      assert (a + b)[1..] == a[1..] + b && s[k..][n - k..] == s[n..];
      ReadsBoth(s[k..], a[1..], n - k, b, m);
    }
  }

  /** Where the tokens up to `k` end, the others begin. */
  lemma {:induction false} ReadsSplit(s: string, w: seq<string>, n: nat, k: nat) returns (m: nat)
    requires Reads(s, w, n) && k <= |w|
    ensures m <= n && m <= |s| && Reads(s, w[..k], m) && Reads(s[m..], w[k..], n - m)
    decreases k
  {
    hide ReadToken;
    ReadsWithin(s, w, n);
    if k == 0 {
      m := 0;
      assert s[0..] == s && w[0..] == w;
    } else {
      var i := ReadToken(s).value.n;
      var j := ReadsSplit(s[i..], w[1..], n - i, k - 1);
      m := i + j;
      assert w[..k][1..] == w[1..][..k - 1] && w[k..] == w[1..][k - 1..] && s[i..][j..] == s[m..];
    }
  }

  lemma ReadsOne(s: string, x: string, n: nat)
    ensures Reads(s, [x], n) <==> ReadToken(s) == Some(Token(x, n))
  {
    hide ReadToken;
    if ReadToken(s).Some? {
      var tok := ReadToken(s).value;
      assert [x][1..] == [];
      assert n >= tok.n ==> (Reads(s[tok.n..], [], n - tok.n) <==> n == tok.n);
    }
  }

  /** What may stand behind a type. */
  predicate Ends(s: string) {
    var tok := ReadToken(s);
    tok.None? || tok.value.text in {":", ">"}
  }

  // ----- Spelling

  predicate IsWord(x: string) {
    x != "" && IsIdent0(x[0])
  }

  predicate Anonymous(vt: GoType) {
    vt.Struct? && vt.name == ""
  }

  /**
    A part of the keyword; the name, if it stands `alone` in front of an end; or a package and
    the name. For a struct without a name any word will do.
   */
  predicate SpellsName(vt: GoType, tag: Tag, w: seq<string>, alone: bool) {
    || (|w| == 1 && w[0] != "" && Contains(Keyword(tag), w[0]))
    || (|w| == 1 && IsWord(w[0]) && (Anonymous(vt) || (alone && w[0] == NameOf(vt))))
    || (|w| == 3 && IsWord(w[0]) && !Contains(Keyword(tag), w[0]) && w[1] == "." && IsWord(w[2])
        && w[2] == NameOf(vt))
  }

  /** A named int64 is an enum, unless it is spelled by a part of the keyword. */
  function SpelledTag(vt: GoType, tag: Tag, w: seq<string>): Tag
    requires w != []
  {
    if tag == T_i64 && vt != INT64 && !Contains(Keyword(tag), w[0]) then T_enum else tag
  }

  ghost predicate Spells(vt: GoType, t: Type, w: seq<string>, allowPtrs: bool)
    decreases t, 1
  {
    t.S == vt &&
    match t
    case Simple(tag, _) =>
      && !vt.Map? && KindTag(vt).Some? && SpellsName(vt, KindTag(vt).value, w, true)
      && tag == SpelledTag(vt, KindTag(vt).value, w)
    case PtrTo(v, _) => vt.Ptr? && allowPtrs && Spells(vt.elem, v, w, false)
    case SetOf(v, _) => vt.Slice? && SpellsSlice(vt, t, w)
    case ListOf(v, _) => vt.Slice? && SpellsSlice(vt, t, w)
    case MapOf(k, v, _) => vt.Map? && exists a: nat, b: nat :: SpellsMap(vt, t, w, a, b)
  }

  ghost predicate SpellsSlice(vt: GoType, t: Type, w: seq<string>)
    requires vt.Slice? && (t.SetOf? || t.ListOf?)
    decreases t, 0
  {
    && vt.elem != BYTE && |w| >= 3 && w[0] == (if t.SetOf? then "set" else "list") && w[1] == "<" && w[|w| - 1] == ">"
    && IsValueType(t.V) && Spells(vt.elem, t.V, w[2..|w| - 1], true)
  }

  /** The bracket stands at `a`, the colon at `b`. */
  ghost predicate SpellsMap(vt: GoType, t: Type, w: seq<string>, a: nat, b: nat)
    requires vt.Map? && t.MapOf?
    decreases t, 0
  {
    && a < b < |w| - 1 && w[a] == "<" && w[b] == ":" && w[|w| - 1] == ">"
    && SpellsName(vt, T_map, w[..a], false)
    && IsKeyType(t.K) && Spells(vt.key, t.K, w[a + 1..b], true)
    && IsValueType(t.V) && Spells(vt.val, t.V, w[b + 1..|w| - 1], true)
  }

  // ----- Names

  /** A name is read as it is spelled; what stands behind it may matter for a single word. */
  lemma NameIsSpelled(vt: GoType, tag: Tag, s: string) returns (w: seq<string>)
    requires ReadName(vt, tag, s).Name?
    ensures var r := ReadName(vt, tag, s);
      && w != [] && Reads(s, w, r.n) && r.tag == SpelledTag(vt, tag, w)
      && SpellsName(vt, tag, w, Ends(s[r.n..]))
  {
    hide Contains, Reads, Keyword, IsIdent0, ReadToken;
    var tok := ReadToken(s).value;
    var rest := s[tok.n..];
    ReadsOne(s, tok.text, tok.n);
    var next := ReadToken(rest);
    if Contains(Keyword(tag), tok.text) || Anonymous(vt) || next.None? || next.value.text != "." {
      w := [tok.text];
    } else {
      var q := ReadToken(rest[next.value.n..]).value;
      ReadsThree(s, tok, next.value, q);
      w := [tok.text, ".", q.text];
    }
  }

  lemma ReadsThree(s: string, x: Token, y: Token, z: Token)
    requires x.n <= |s| && y.n <= |s| - x.n && z.n <= |s| - x.n - y.n
    requires ReadToken(s) == Some(x) && ReadToken(s[x.n..]) == Some(y) && ReadToken(s[x.n..][y.n..]) == Some(z)
    ensures Reads(s, [x.text, y.text, z.text], x.n + y.n + z.n)
  {
    hide ReadToken, Reads;
    ReadsOne(s, x.text, x.n);
    ReadsOne(s[x.n..], y.text, y.n);
    ReadsOne(s[x.n..][y.n..], z.text, z.n);
    ReadsBoth(s[x.n..], [y.text], y.n, [z.text], z.n);
    ReadsBoth(s, [x.text], x.n, [y.text] + [z.text], y.n + z.n);
    assert [x.text] + ([y.text] + [z.text]) == [x.text, y.text, z.text];
  }

  lemma OneWordReads(vt: GoType, tag: Tag, s: string, w: seq<string>, n: nat)
    requires |w| == 1 && n <= |s| && ReadToken(s) == Some(Token(w[0], n)) && SpellsName(vt, tag, w, Ends(s[n..]))
    ensures ReadName(vt, tag, s) == Name(SpelledTag(vt, tag, w), n)
  {
    hide Contains, Keyword, IsIdent0, ReadToken;
  }

  lemma ThreeWordsRead(vt: GoType, tag: Tag, s: string, w: seq<string>, i: nat, j: nat, k: nat)
    requires |w| == 3 && i + j + k <= |s| && SpellsName(vt, tag, w, false)
    requires ReadToken(s) == Some(Token(w[0], i)) && ReadToken(s[i..]) == Some(Token(w[1], j))
    requires ReadToken(s[i..][j..]) == Some(Token(w[2], k))
    ensures ReadName(vt, tag, s) == Name(SpelledTag(vt, tag, w), i + j + k)
  {
    hide Contains, Keyword, IsIdent0, ReadToken;
  }

  lemma LongNames(vt: GoType, tag: Tag, w: seq<string>, alone: bool)
    requires SpellsName(vt, tag, w, alone)
    ensures |w| == 1 || |w| == 3
    ensures |w| == 3 ==> SpellsName(vt, tag, w, false)
  {
    hide Contains, Keyword, IsIdent0;
  }

  lemma SpelledNameReads(vt: GoType, tag: Tag, s: string, w: seq<string>, n: nat)
    requires w != [] && Reads(s, w, n) && n <= |s| && SpellsName(vt, tag, w, Ends(s[n..]))
    ensures ReadName(vt, tag, s) == Name(SpelledTag(vt, tag, w), n)
  {
    hide ReadName, ReadToken, Reads, SpellsName, SpelledTag, Ends;
    LongNames(vt, tag, w, Ends(s[n..]));
    if |w| == 1 {
      assert w == [w[0]];
      ReadsOne(s, w[0], n);
      OneWordReads(vt, tag, s, w, n);
    } else {
      var i := ReadsSplit(s, w, n, 1);
      var j := ReadsSplit(s[i..], w[1..], n - i, 1);
      assert w[..1] == [w[0]] && w[1..][..1] == [w[1]] && w[1..][1..] == [w[2]];
      ReadsOne(s, w[0], i);
      ReadsOne(s[i..], w[1], j);
      ReadsOne(s[i..][j..], w[2], n - i - j);
      ThreeWordsRead(vt, tag, s, w, i, j, n - i - j);
    }
  }

  // ----- Types

  lemma {:induction false} ParsedIsSpelled(vt: GoType, s: string, allowPtrs: bool) returns (w: seq<string>)
    requires ParseType(vt, true, s, allowPtrs).Ok?
    ensures var r := ParseType(vt, true, s, allowPtrs); Reads(s, w, r.n) && Spells(vt, r.t, w, allowPtrs)
    decreases vt, 1
  {
    hide ReadName, ParseMap, ParseSlice, Reads, SpellsName, SpelledTag, Spells, KindTag;
    var r := ParseType(vt, true, s, allowPtrs);
    if vt.Ptr? {
      w := ParsedIsSpelled(vt.elem, s, false);
      PointerSpelled(vt, r.t, w);
    } else if vt.Slice? && vt.elem != BYTE {
      w := SliceIsSpelled(vt, s, allowPtrs);
    } else {
      var tag := KindTag(vt).value;
      w := NameIsSpelled(vt, tag, s);
      var name := ReadName(vt, tag, s);
      if vt.Map? {
        MapKind(vt);
        w := MapIsSpelled(vt, s, w, name.n, allowPtrs);
      } else {
        SimpleSpelled(vt, r.t, w, Ends(s[name.n..]), allowPtrs);
      }
    }
  }

  lemma MapKind(vt: GoType)
    requires vt.Map?
    ensures KindTag(vt) == Some(T_map)
  {
  }

  lemma PointerSpelled(vt: GoType, t: Type, w: seq<string>)
    requires vt.Ptr? && t.PtrTo? && t.S == vt && Spells(vt.elem, t.V, w, false)
    ensures Spells(vt, t, w, true)
  {
  }

  lemma SimpleSpelled(vt: GoType, t: Type, w: seq<string>, alone: bool, allowPtrs: bool)
    requires w != [] && !vt.Map? && KindTag(vt).Some? && SpellsName(vt, KindTag(vt).value, w, alone)
    requires t == Simple(SpelledTag(vt, KindTag(vt).value, w), vt)
    ensures Spells(vt, t, w, allowPtrs)
  {
    hide Contains, Keyword, IsIdent0;
  }

  lemma {:induction false} SliceIsSpelled(vt: GoType, s: string, allowPtrs: bool) returns (w: seq<string>)
    requires vt.Slice? && vt.elem != BYTE && ParseSlice(vt, s).Ok?
    ensures var r := ParseSlice(vt, s); Reads(s, w, r.n) && Spells(vt, r.t, w, allowPtrs)
    decreases vt, 0
  {
    hide ParseType, Reads, ReadToken, Spells, IsValueType;
    var r := ParseSlice(vt, s);
    var x := ReadToken(s).value;
    var a := Expect(true, s[x.n..], "<").value;
    var i := x.n + a;
    var u := ParsedIsSpelled(vt.elem, s[i..], true);
    var v := ParseType(vt.elem, true, s[i..], true);
    var c := Expect(true, s[i + v.n..], ">").value;
    ReadsOne(s, x.text, x.n);
    ReadsOne(s[x.n..], "<", a);
    ReadsOne(s[i + v.n..], ">", c);
    ReadsBoth(s, [x.text], x.n, ["<"], a);
    DropDrop(s, i, v.n);
    ReadsBoth(s[i..], u, v.n, [">"], c);
    ReadsBoth(s, [x.text] + ["<"], i, u + [">"], v.n + c);
    SliceSpelled(vt, r.t, x.text, u, allowPtrs);
    w := [x.text] + ["<"] + (u + [">"]);
  }

  lemma SliceSpelled(vt: GoType, t: Type, word: string, u: seq<string>, allowPtrs: bool)
    requires vt.Slice? && vt.elem != BYTE && t.S == vt && (t.SetOf? || t.ListOf?)
    requires word == (if t.SetOf? then "set" else "list") && IsValueType(t.V) && Spells(vt.elem, t.V, u, true)
    ensures Spells(vt, t, [word] + ["<"] + (u + [">"]), allowPtrs)
  {
    hide IsValueType;
    var w := [word] + ["<"] + (u + [">"]);
    assert w[2..|w| - 1] == u;
    assert SpellsSlice(vt, t, w);
  }

  /** The pieces of a map type that was parsed. */
  lemma MapPieces(vt: GoType, z: string) returns (a: nat, i: nat, b: nat, j: nat, c: nat)
    requires vt.Map? && ParseMap(vt, true, z).Ok?
    ensures var r := ParseMap(vt, true, z);
      && a <= i <= i + b <= j <= |z| && r.n == j + c
      && ReadToken(z) == Some(Token("<", a)) && ReadToken(z[i..]) == Some(Token(":", b))
      && ReadToken(z[j..]) == Some(Token(">", c))
      && r.t.MapOf? && r.t.S == vt && IsKeyType(r.t.K) && IsValueType(r.t.V)
      && ParseType(vt.key, true, z[a..], true) == Ok(r.t.K, i - a)
      && ParseType(vt.val, true, z[i + b..], true) == Ok(r.t.V, j - i - b)
  {
    hide ParseType, ReadToken, IsKeyType, IsValueType;
    a := Expect(true, z, "<").value;
    var k := ParseType(vt.key, true, z[a..], true);
    i := a + k.n;
    b := Expect(true, z[i..], ":").value;
    var v := ParseType(vt.val, true, z[i + b..], true);
    j := i + b + v.n;
    c := Expect(true, z[j..], ">").value;
  }

  lemma {:induction false} MapIsSpelled(vt: GoType, s: string, m: seq<string>, n: nat, allowPtrs: bool)
    returns (w: seq<string>)
    requires vt.Map? && n <= |s| && ParseMap(vt, true, s[n..]).Ok?
    requires Reads(s, m, n) && m != [] && SpellsName(vt, T_map, m, Ends(s[n..]))
    ensures var r := ParseMap(vt, true, s[n..]); Reads(s, w, n + r.n) && Spells(vt, r.t, w, allowPtrs)
    decreases vt, 0
  {
    hide ParseType, ParseMap, Reads, ReadToken, Spells, SpellsName, IsKeyType, IsValueType, Ends;
    var z := s[n..];
    var r := ParseMap(vt, true, z);
    var a, i, b, j, c := MapPieces(vt, z);
    var wk := ParsedIsSpelled(vt.key, z[a..], true);
    var wv := ParsedIsSpelled(vt.val, z[i + b..], true);
    BracketNoEnd(z, a);
    PiecesRead(z, wk, wv, a, i, b, j, c);
    var body := ["<"] + (wk + ([":"] + (wv + [">"])));
    ReadsBoth(s, m, n, body, r.n);
    w := m + body;
    MapSpelled(vt, r.t, m, wk, wv, allowPtrs);
  }

  lemma PiecesRead(z: string, wk: seq<string>, wv: seq<string>, a: nat, i: nat, b: nat, j: nat, c: nat)
    requires a <= i <= i + b <= j <= |z|
    requires ReadToken(z) == Some(Token("<", a)) && Reads(z[a..], wk, i - a)
    requires ReadToken(z[i..]) == Some(Token(":", b)) && Reads(z[i + b..], wv, j - i - b)
    requires ReadToken(z[j..]) == Some(Token(">", c))
    ensures Reads(z, ["<"] + (wk + ([":"] + (wv + [">"]))), j + c)
  {
    hide Reads, ReadToken;
    ReadsOne(z, "<", a);
    ReadsOne(z[i..], ":", b);
    ReadsOne(z[j..], ">", c);
    DropDrop(z, i + b, j - i - b);
    ReadsBoth(z[i + b..], wv, j - i - b, [">"], c);
    DropDrop(z, i, b);
    ReadsBoth(z[i..], [":"], b, wv + [">"], j - i - b + c);
    DropDrop(z, a, i - a);
    ReadsBoth(z[a..], wk, i - a, [":"] + (wv + [">"]), j - i + c);
    ReadsBoth(z, ["<"], a, wk + ([":"] + (wv + [">"])), j - a + c);
  }

  /** In front of a bracket no name stands alone. */
  lemma BracketNoEnd(s: string, n: nat)
    requires ReadToken(s) == Some(Token("<", n))
    ensures !Ends(s)
  {
  }

  lemma MapSpelled(vt: GoType, t: Type, m: seq<string>, wk: seq<string>, wv: seq<string>, allowPtrs: bool)
    requires vt.Map? && t.MapOf? && t.S == vt && m != [] && SpellsName(vt, T_map, m, false)
    requires IsKeyType(t.K) && IsValueType(t.V) && Spells(vt.key, t.K, wk, true) && Spells(vt.val, t.V, wv, true)
    ensures Spells(vt, t, m + (["<"] + (wk + ([":"] + (wv + [">"])))), allowPtrs)
  {
    hide IsKeyType, IsValueType, SpellsName;
    var w := m + (["<"] + (wk + ([":"] + (wv + [">"]))));
    var a, b := |m|, |m| + 1 + |wk|;
    assert w[..a] == m && w[a + 1..b] == wk && w[b + 1..|w| - 1] == wv;
    assert w[a] == "<" && w[b] == ":" && w[|w| - 1] == ">";
    assert SpellsMap(vt, t, w, a, b);
  }

  // ----- What is spelled is parsed.

  lemma {:induction false} SpelledParses(vt: GoType, t: Type, s: string, w: seq<string>, n: nat, allowPtrs: bool)
    requires Reads(s, w, n) && n <= |s| && Spells(vt, t, w, allowPtrs) && Ends(s[n..])
    ensures ParseType(vt, true, s, allowPtrs) == Ok(t, n)
    decreases t, 1
  {
    hide ReadName, ParseMap, ParseSlice, Reads, SpellsName, SpelledTag, KindTag, Ends, SpellsSlice, SpellsMap;
    match t
    case PtrTo(v, _) => SpelledParses(vt.elem, v, s, w, n, false);
    case Simple(_, _) =>
      NamesNotEmpty(vt, w);
      SpelledNameReads(vt, KindTag(vt).value, s, w, n);
      NotPointerNorSlice(vt);
      TypeSteps(vt, s, allowPtrs);
    case SetOf(_, _) => SpelledSliceParses(vt, t, s, w, n, allowPtrs);
    case ListOf(_, _) => SpelledSliceParses(vt, t, s, w, n, allowPtrs);
    case MapOf(_, _, _) =>
      var a: nat, b: nat :| SpellsMap(vt, t, w, a, b);
      SpelledMapParses(vt, t, s, w, n, a, b, allowPtrs);
  }

  lemma NamesNotEmpty(vt: GoType, w: seq<string>)
    ensures forall tag, alone :: SpellsName(vt, tag, w, alone) ==> w != []
  {
    hide Contains;
  }

  lemma NotPointerNorSlice(vt: GoType)
    requires KindTag(vt).Some?
    ensures !vt.Ptr? && (vt.Slice? ==> vt.elem == BYTE)
  {
  }

  lemma BracketEnds(s: string, x: string, n: nat)
    requires ReadToken(s) == Some(Token(x, n)) && x in {":", ">"}
    ensures Ends(s)
  {
  }

  lemma {:induction false} SpelledSliceParses(vt: GoType, t: Type, s: string, w: seq<string>, n: nat, allowPtrs: bool)
    requires vt.Slice? && (t.SetOf? || t.ListOf?) && t.S == vt && Reads(s, w, n) && n <= |s| && SpellsSlice(vt, t, w)
    ensures ParseType(vt, true, s, allowPtrs) == Ok(t, n)
    decreases t, 0
  {
    hide ParseType, Reads, ReadToken, Spells, IsValueType;
    var u := w[2..|w| - 1];
    var i := ReadsSplit(s, w, n, 2);
    var j := ReadsSplit(s[i..], w[2..], n - i, |w| - 3);
    var x := ReadsSplit(s, w[..2], i, 1);
    assert w[2..][..|w| - 3] == u && w[2..][|w| - 3..] == [">"];
    assert w[..2][..1] == [w[0]] && w[..2][1..] == ["<"];
    DropDrop(s, i, j);
    ReadsOne(s, w[0], x);
    ReadsOne(s[x..], "<", i - x);
    ReadsOne(s[i + j..], ">", n - i - j);
    BracketEnds(s[i + j..], ">", n - i - j);
    SpelledParses(vt.elem, t.V, s[i..], u, j, true);
    TypeSteps(vt, s, allowPtrs);
  }

  lemma {:induction false} SpelledMapParses(vt: GoType, t: Type, s: string, w: seq<string>, n: nat, a: nat, b: nat,
                                            allowPtrs: bool)
    requires vt.Map? && t.MapOf? && t.S == vt && Reads(s, w, n) && n <= |s| && SpellsMap(vt, t, w, a, b)
    ensures ParseType(vt, true, s, allowPtrs) == Ok(t, n)
    decreases t, 0
  {
    hide ParseType, ParseMap, Reads, ReadToken, Spells, IsKeyType, IsValueType, SpellsName, ReadName;
    var m := ReadsSplit(s, w, n, a);
    var y := w[a..];
    assert y[1..b - a] == w[a + 1..b] && y[b - a + 1..|y| - 1] == w[b + 1..|w| - 1];
    MapParts(t);
    SpelledBodyParses(vt, t, s[m..], y, n - m, b - a);
    NotAlone(vt, w[..a], Ends(s[m..]));
    SpelledNameReads(vt, T_map, s, w[..a], m);
    TypeSteps(vt, s, allowPtrs);
  }

  lemma MapParts(t: Type)
    requires t.MapOf?
    ensures t == MapOf(t.K, t.V, t.S)
  {
  }

  lemma NotAlone(vt: GoType, w: seq<string>, alone: bool)
    requires vt.Map? && SpellsName(vt, T_map, w, false)
    ensures w != [] && SpellsName(vt, T_map, w, alone) && SpelledTag(vt, T_map, w) == T_map
  {
    hide Contains;
  }

  /** Behind the word for a map; the colon is token `b`. */
  lemma {:induction false} SpelledBodyParses(vt: GoType, t: Type, z: string, y: seq<string>, n: nat, b: nat)
    requires vt.Map? && t.MapOf? && t.S == vt && Reads(z, y, n) && n <= |z|
    requires 0 < b < |y| - 1 && y[0] == "<" && y[b] == ":" && y[|y| - 1] == ">" && IsKeyType(t.K) && IsValueType(t.V)
    requires Spells(vt.key, t.K, y[1..b], true) && Spells(vt.val, t.V, y[b + 1..|y| - 1], true)
    ensures ParseMap(vt, true, z) == Ok(t, n)
    decreases t, -1
  {
    hide ParseType, ParseMap, Reads, ReadToken, Spells, IsKeyType, IsValueType;
    var wk, wv := y[1..b], y[b + 1..|y| - 1];
    var i := ReadsSplit(z, y, n, 1);
    var j := ReadsSplit(z[i..], y[1..], n - i, b - 1);
    DropDrop(z, i, j);
    var k := ReadsSplit(z[i + j..], y[1..][b - 1..], n - i - j, 1);
    DropDrop(z, i + j, k);
    var l := ReadsSplit(z[i + j + k..], y[1..][b - 1..][1..], n - i - j - k, |wv|);
    DropDrop(z, i + j + k, l);
    assert y[..1] == ["<"] && y[1..][..b - 1] == wk && y[1..][b - 1..][..1] == [":"];
    assert y[1..][b - 1..][1..][..|wv|] == wv && y[1..][b - 1..][1..][|wv|..] == [">"];
    ReadsOne(z, "<", i);
    ReadsOne(z[i + j..], ":", k);
    ReadsOne(z[i + j + k + l..], ">", n - i - j - k - l);
    BracketEnds(z[i + j..], ":", k);
    BracketEnds(z[i + j + k + l..], ">", n - i - j - k - l);
    SpelledParses(vt.key, t.K, z[i..], wk, j, true);
    SpelledParses(vt.val, t.V, z[i + j + k..], wv, l, true);
    MapBodySteps(vt, z, t, i, j, k, l, n);
  }

  lemma MapBodySteps(vt: GoType, z: string, t: Type, i: nat, j: nat, k: nat, l: nat, n: nat)
    requires vt.Map? && t.MapOf? && t.S == vt && i + j + k + l <= n <= |z| && IsKeyType(t.K) && IsValueType(t.V)
    requires ReadToken(z) == Some(Token("<", i)) && ParseType(vt.key, true, z[i..], true) == Ok(t.K, j)
    requires ReadToken(z[i + j..]) == Some(Token(":", k))
    requires ParseType(vt.val, true, z[i + j + k..], true) == Ok(t.V, l)
    requires ReadToken(z[i + j + k + l..]) == Some(Token(">", n - i - j - k - l))
    ensures ParseMap(vt, true, z) == Ok(t, n)
  {
    hide ParseType, ReadToken, IsKeyType, IsValueType;
    MapParts(t);
  }

  /**
    In front of an end, the parser accepts exactly the token sequences that spell a type, reads
    them to their last character, and gives that type.
   */
  lemma ParsesIffSpelled(vt: GoType, t: Type, s: string, n: nat, allowPtrs: bool)
    requires n <= |s| && Ends(s[n..])
    ensures ParseType(vt, true, s, allowPtrs) == Ok(t, n)
      <==> exists w :: Reads(s, w, n) && Spells(vt, t, w, allowPtrs)
  {
    hide ParseType, Reads, Spells, Ends;
    if ParseType(vt, true, s, allowPtrs) == Ok(t, n) {
      var w := ParsedIsSpelled(vt, s, allowPtrs);
    }
    if w :| Reads(s, w, n) && Spells(vt, t, w, allowPtrs) {
      SpelledParses(vt, t, s, w, n, allowPtrs);
    }
  }

  // ----- Characters

  /** What unicode.IsSpace takes for a space in one byte. */
  const SPACES: string := " \t\n\U{0B}\U{0C}\r\U{85}\U{A0}"

  lemma SpaceOrNot(c: char)
    ensures IsSpace(c) <==> c in SPACES
  {
    assert c in SPACES ==> exists i :: 0 <= i < |SPACES| && SPACES[i] == c;
    assert SPACES[0] == ' ' && SPACES[1] == '\t' && SPACES[2] == '\n' && SPACES[3] == '\U{0B}' && SPACES[4] == '\U{0C}'
      && SPACES[5] == '\r' && SPACES[6] == '\U{85}' && SPACES[7] == '\U{A0}';
  }

  /** Letters are those of ASCII and the underscore; digits may stand behind the first one. */
  lemma Letters(c: char)
    ensures IsIdent0(c) <==> c as int == 95 || 65 <= c as int <= 90 || 97 <= c as int <= 122
    ensures IsIdent(c) <==> IsIdent0(c) || 48 <= c as int <= 57
  {
  }

  lemma SpacesCounted(c: char, s: string)
    requires IsSpace(c)
    ensures Spaces([c] + s) == 1 + Spaces(s)
  {
    assert ([c] + s)[1..] == s;
  }

  lemma ShiftedBy(c: char, s: string, i: nat, j: nat)
    requires i <= j <= |s|
    ensures ([c] + s)[i + 1..] == s[i..] && ([c] + s)[i + 1..j + 1] == s[i..j]
  {
  }

  /** The token behind a space. */
  lemma SpaceToken(c: char, s: string)
    requires IsSpace(c)
    ensures ReadToken(s).None? ==> ReadToken([c] + s).None?
    ensures ReadToken(s).Some? ==>
      var tok := ReadToken(s).value;
      ReadToken([c] + s) == Some(Token(tok.text, tok.n + 1)) && ([c] + s)[tok.n + 1..] == s[tok.n..]
  {
    hide Spaces, IsSpace, IsIdent0, IdentLength;
    SpacesCounted(c, s);
    var p := Spaces(s);
    if p < |s| {
      assert ([c] + s)[p + 1] == s[p];
      ShiftedBy(c, s, p + 1, |s|);
      var tok := ReadToken(s).value;
      ShiftedBy(c, s, p, tok.n);
      ShiftedBy(c, s, tok.n, |s|);
    }
  }

  /** A space in front of a token changes nothing but where it ends. */
  lemma SpaceInFront(c: char, s: string, w: seq<string>, n: nat)
    requires c in SPACES && w != []
    ensures Reads([c] + s, w, n + 1) <==> Reads(s, w, n)
  {
    hide ReadToken, IsSpace;
    SpaceOrNot(c);
    SpaceToken(c, s);
  }
}
