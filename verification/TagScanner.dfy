/**
  The parser of module TagParser as the code has it: one source string and a position that
  moves through it (internal/defs/types.go).
 */
module TagScanner {
  import opened Common
  import opened TagParser

  class Scanner {
    const src: string
    var i: nat

    constructor (src: string)
      ensures this.src == src && i == 0
    {
      this.src, i := src, 0;
    }

    ghost predicate Valid()
      reads this
    {
      i <= |src|
    }

    /** What is left to read. */
    function Rest(): string
      requires Valid()
      reads this
    {
      src[i..]
    }

    /** The first position from `p` on that holds no space. */
    method SkipSpaces(p: nat) returns (q: nat)
      requires p <= |src|
      ensures q == p + Spaces(src[p..])
    {
      q := p;
      while q < |src| && IsSpace(src[q])
        invariant p <= q <= |src|
        invariant Spaces(src[p..]) == q - p + Spaces(src[q..])
      {
        assert src[q..][1..] == src[q + 1..];
        q := q + 1;
      }
    }

    /** The end of the identifier characters from `p` on. */
    method SkipIdent(p: nat) returns (q: nat)
      requires p <= |src|
      ensures q == p + IdentLength(src[p..])
    {
      q := p;
      while q < |src| && IsIdent(src[q])
        invariant p <= q <= |src|
        invariant IdentLength(src[p..]) == q - p + IdentLength(src[q..])
      {
        assert src[q..][1..] == src[q + 1..];
        q := q + 1;
      }
    }

    /** readToken; at the end of the source the position stays. */
    method NextToken() returns (r: Option<Token>)
      requires Valid()
      modifies this
      ensures Valid() && r == ReadToken(old(Rest()))
      ensures i == old(i) + if r.Some? then r.value.n else 0
    {
      hide Spaces, IdentLength, IsIdent0;
      var q := SkipSpaces(i);
      if q == |src| {
        return None;
      }
      var p := q + 1;
      DropDrop(src, i, p - i);
      if IsIdent0(src[q]) {
        p := SkipIdent(p);
      }
      assert src[i..][q - i..p - i] == src[q..p];
      r := Some(Token(src[q..p], p - i));
      i := p;
    }

    /** What a step has read, if it went well, is where the position has moved. */
    ghost predicate Moved(before: nat, r: Parsed)
      reads this
    {
      Valid() && before <= i && (r.Ok? ==> i == before + r.n)
    }

    /** One expected character; without a tag nothing is read. */
    method Take(c: string) returns (ok: bool)
      requires Valid()
      modifies this
      ensures Valid() && i >= old(i)
      ensures var e := Expect(src != "", old(Rest()), c); ok == e.Some? && (ok ==> i == old(i) + e.value)
    {
      hide ReadToken;
      if src == "" {
        return true;
      }
      var tok := NextToken();
      return tok.Some? && tok.value.text == c;
    }

    /** doMatchStruct: the position moves past a qualified name only. */
    method MatchStruct(vt: GoType, tv: string) returns (ok: bool)
      requires Valid()
      modifies this
      ensures Valid() && i >= old(i)
      ensures var m := TagParser.MatchStruct(vt, old(Rest()), tv); ok == m.Some? && (ok ==> i == old(i) + m.value)
    {
      hide ReadToken;
      var sp := i;
      var tok := NextToken();
      var name := tv;
      if NameOf(vt) == "" && vt.Struct? {
        i := sp;
        return true;
      }
      if tok.None? || tok.value.text == ":" || tok.value.text == ">" {
        i := sp;
        return NameOf(vt) == name;
      }
      if tok.value.text != "." {
        return false;
      }
      DropDrop(src, sp, tok.value.n);
      var q := NextToken();
      if q.None? || !IsIdent0(q.value.text[0]) {
        return false;
      }
      name := q.value.text;
      return NameOf(vt) == name;
    }

    /** The word for a type; None where it does not fit. */
    method ReadName(vt: GoType, tag: Tag) returns (r: Option<Tag>)
      requires Valid()
      modifies this
      ensures Valid() && i >= old(i)
      ensures var m := TagParser.ReadName(vt, tag, old(Rest()));
        r.Some? == m.Name? && (r.Some? ==> r.value == m.tag && i == old(i) + m.n)
    {
      hide ReadToken, TagParser.MatchStruct, Contains;
      var tok := NextToken();
      if tok.None? {
        return None;
      }
      if Contains(Keyword(tag), tok.value.text) {
        return Some(tag);
      }
      if !IsIdent0(tok.value.text[0]) {
        return None;
      }
      DropDrop(src, old(i), tok.value.n);
      var ok := MatchStruct(vt, tok.value.text);
      if !ok {
        return None;
      }
      return Some(if tag == T_i64 && vt != INT64 then T_enum else tag);
    }

    /** doParseType */
    method ParseType(vt: GoType, allowPtrs: bool) returns (r: Parsed)
      requires Valid()
      modifies this
      ensures r == TagParser.ParseType(vt, src != "", old(Rest()), allowPtrs) && Moved(old(i), r)
      decreases vt, 1
    {
      hide TagParser.ReadName, TagParser.ParseMap, TagParser.ParseSlice;
      var start := i;
      if vt.Ptr? {
        if !allowPtrs {
          return Panic;
        }
        r := ParseType(vt.elem, false);
        r := Pointer(vt, r);
        return;
      }
      if vt.Slice? && vt.elem != BYTE {
        if src == "" {
          return Err;
        }
        r := ParseSlice(vt);
        return;
      }
      var tag := KindTag(vt);
      if tag.None? {
        return Err;
      }
      if src != "" {
        tag := ReadName(vt, tag.value);
        if tag.None? {
          return Err;
        }
      }
      if !vt.Map? {
        return Ok(Simple(tag.value, vt), i - start);
      }
      DropDrop(src, start, i - start);
      r := ParseMap(vt);
      r := if r.Ok? then Ok(r.t, i - start) else r;
    }

    /** The rest of a map type. */
    method ParseMap(vt: GoType) returns (r: Parsed)
      requires Valid() && vt.Map?
      modifies this
      ensures r == TagParser.ParseMap(vt, src != "", old(Rest())) && Moved(old(i), r)
      decreases vt, 0
    {
      hide TagParser.ParseType, Expect, IsKeyType, IsValueType;
      var start := i;
      var a := Take("<");
      if !a {
        return Err;
      }
      DropDrop(src, start, i - start);
      var k := ParseType(vt.key, true);
      if !k.Ok? {
        return k;
      }
      if !IsKeyType(k.t) {
        return Err;
      }
      DropDrop(src, start, i - start);
      var b := Take(":");
      if !b {
        return Err;
      }
      DropDrop(src, start, i - start);
      var v := ParseType(vt.val, true);
      if !v.Ok? {
        return v;
      }
      DropDrop(src, start, i - start);
      var c := Take(">");
      if !c || !IsValueType(v.t) {
        return Err;
      }
      return Ok(MapOf(k.t, v.t, vt), i - start);
    }

    /** doParseSlice */
    method ParseSlice(vt: GoType) returns (r: Parsed)
      requires Valid() && vt.Slice? && src != ""
      modifies this
      ensures r == TagParser.ParseSlice(vt, old(Rest())) && Moved(old(i), r)
      decreases vt, 0
    {
      hide TagParser.ParseType, Expect, ReadToken, IsValueType;
      var start := i;
      var tok := NextToken();
      if tok.None? || (tok.value.text != "set" && tok.value.text != "list") {
        return Err;
      }
      DropDrop(src, start, i - start);
      var a := Take("<");
      if !a {
        return Err;
      }
      DropDrop(src, start, i - start);
      var v := ParseType(vt.elem, true);
      if !v.Ok? {
        return v;
      }
      DropDrop(src, start, i - start);
      var c := Take(">");
      if !c || !IsValueType(v.t) {
        return Err;
      }
      return Ok(if tok.value.text == "set" then SetOf(v.t, vt) else ListOf(v.t, vt), i - start);
    }
  }
}
