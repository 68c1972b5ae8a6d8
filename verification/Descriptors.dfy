/**
  From the declared fields of a Go struct to its descriptor: DoResolveFields
  (internal/defs/resolver.go) checks and sorts them, fromDefsFields (internal/reflect/desc.go)
  builds the tables that the codec uses.
 */
module Descriptors {
  import opened Common
  import opened Schema
  import FastPaths
  import FT = FieldTypes
  import Layout
  import TP = TagParser

  // ----- DoResolveFields

  /**
    A declared struct field: embedded, unexported and untagged ones are ignored. Of the others,
    the parts of the tag are given; None where the ID or the requiredness cannot be read.
   */
  datatype Decl =
    | Ignored
    | Tagged(id: Option<nat>, spec: Option<Requiredness>, vt: TP.GoType, typ: string, options: seq<string>)

  /** The type in the tag, or that of the Go type alone. */
  function ParsedType(d: Decl): TP.Parsed
    requires d.Tagged?
  {
    TP.ParseType(d.vt, d.typ != "", d.typ, true)
  }

  /** Panic comes from the parser of types. */
  datatype Resolution = Fields(fields: seq<Field>) | Refused | Panic

  /** Some(whether "nocopy" is among the options), None if they are not allowed. */
  function NoCopyOption(t: Type, options: seq<string>): Option<bool> {
    if options == [] then Some(false)
    else if |options| == 1 && options[0] == "nocopy" && WireType(t) == WT_STRING then Some(true)
    else None
  }

  predicate PointerAllowed(spec: Requiredness, t: TP.Type) {
    spec == Optional || !t.PtrTo? || TP.IsPtrToStruct(t)
  }

  /** The parts in front of the type. */
  predicate Begins(d: Decl) {
    d.Tagged? && d.id.Some? && d.id.value <= 0xFFFF && d.spec.Some?
  }

  predicate Declares(d: Decl) {
    && Begins(d) && ParsedType(d).Ok?
    && PointerAllowed(d.spec.value, ParsedType(d).t)
    && NoCopyOption(FT.ToType(ParsedType(d).t), d.options).Some?
  }

  function FieldOf(d: Decl): Field
    requires Declares(d)
  {
    var t := FT.ToType(ParsedType(d).t);
    Field(d.id.value, t, d.spec.value, NoCopyOption(t, d.options).value)
  }

  /** The fields declared, in the order of declaration. */
  function Declared(decls: seq<Decl>): seq<Field>
    requires forall i :: 0 <= i < |decls| ==> decls[i].Ignored? || Declares(decls[i])
  {
    if decls == [] then []
    else
      var l := |decls| - 1;
      Declared(decls[..l]) + (if decls[l].Ignored? then [] else [FieldOf(decls[l])])
  }

  predicate HasID(d: Decl, id: nat) {
    d.Tagged? && d.id == Some(id)
  }

  predicate SameID(a: Decl, b: Decl) {
    a.Tagged? && a.id.Some? && HasID(b, a.id.value)
  }

  /** What DoResolveFields accepts. */
  predicate WellDeclared(decls: seq<Decl>) {
    && (forall i :: 0 <= i < |decls| ==> decls[i].Ignored? || Declares(decls[i]))
    && (forall i, j :: 0 <= i < j < |decls| ==> !SameID(decls[i], decls[j]))
  }

  /** Declaration `k` is the first one that is not accepted, and its type makes the parser panic. */
  predicate TrapAt(decls: seq<Decl>, k: nat) {
    && k < |decls| && WellDeclared(decls[..k]) && decls[k].Tagged?
    && Begins(decls[k]) && ParsedType(decls[k]).Panic?
    && forall i :: 0 <= i < k ==> !SameID(decls[i], decls[k])
  }

  predicate Ascending(ff: seq<Field>) {
    forall i, j :: 0 <= i < j < |ff| ==> ff[i].id < ff[j].id
  }

  // ----- sort.Slice by ID. The IDs are distinct, so that there is only one sorted order.

  function Insert(s: seq<Field>, x: Field): seq<Field> {
    if s == [] then [x]
    else
      var l := |s| - 1;
      if s[l].id < x.id then s + [x] else Insert(s[..l], x) + [s[l]]
  }

  function SortByID(ff: seq<Field>): seq<Field> {
    if ff == [] then [] else Insert(SortByID(ff[..|ff| - 1]), ff[|ff| - 1])
  }

  lemma {:induction false} InsertKeeps(s: seq<Field>, x: Field)
    requires Ascending(s) && forall i :: 0 <= i < |s| ==> s[i].id != x.id
    ensures Ascending(Insert(s, x)) && multiset(Insert(s, x)) == multiset(s) + multiset{x}
  {
    if s != [] {
      var l := |s| - 1;
      assert s == s[..l] + [s[l]];
      if s[l].id >= x.id {
        InsertKeeps(s[..l], x);
        var r := Insert(s[..l], x);
        forall i | 0 <= i < |r| ensures r[i].id < s[l].id {
          assert r[i] in multiset(r);
        }
      }
    }
  }

  predicate DistinctIDs(ff: seq<Field>) {
    forall i, j :: 0 <= i < j < |ff| ==> ff[i].id != ff[j].id
  }

  lemma {:induction false} SortByIDSorts(ff: seq<Field>)
    requires DistinctIDs(ff)
    ensures Ascending(SortByID(ff)) && multiset(SortByID(ff)) == multiset(ff)
  {
    if ff != [] {
      var l := |ff| - 1;
      assert ff == ff[..l] + [ff[l]];
      SortByIDSorts(ff[..l]);
      var r := SortByID(ff[..l]);
      forall i | 0 <= i < |r| ensures r[i].id != ff[l].id {
        assert r[i] in multiset(r);
      }
      InsertKeeps(r, ff[l]);
    }
  }

  lemma WithoutLast(a: seq<Field>)
    requires a != []
    ensures multiset(a[..|a| - 1]) == multiset(a) - multiset{a[|a| - 1]}
  {
    assert a == a[..|a| - 1] + [a[|a| - 1]];
  }

  lemma SameLast(a: seq<Field>, b: seq<Field>)
    requires Ascending(a) && Ascending(b) && multiset(a) == multiset(b) && a != []
    ensures |a| == |b| && a[|a| - 1] == b[|a| - 1]
  {
    assert |multiset(a)| == |multiset(b)|;
    var l := |a| - 1;
    assert a[l] in multiset(b) && b[l] in multiset(a);
    var j :| 0 <= j <= l && b[j] == a[l];
    var i :| 0 <= i <= l && a[i] == b[l];
  }

  lemma FromParts(a: seq<Field>, b: seq<Field>)
    requires |a| == |b| > 0 && a[..|a| - 1] == b[..|a| - 1] && a[|a| - 1] == b[|a| - 1]
    ensures a == b
  {
    assert a == a[..|a| - 1] + [a[|a| - 1]];
  }

  lemma PrefixAscending(a: seq<Field>)
    requires Ascending(a) && a != []
    ensures Ascending(a[..|a| - 1])
  {
  }

  /** Any other sorting algorithm gives the same fields in the same order. */
  lemma {:induction false} SortedOrderIsUnique(a: seq<Field>, b: seq<Field>)
    requires Ascending(a) && Ascending(b) && multiset(a) == multiset(b)
    ensures a == b
  {
    hide Ascending;
    if a == [] {
      assert |multiset(b)| == 0;
    } else {
      SameLast(a, b);
      WithoutLast(a);
      WithoutLast(b);
      PrefixAscending(a);
      PrefixAscending(b);
      SortedOrderIsUnique(a[..|a| - 1], b[..|a| - 1]);
      FromParts(a, b);
    }
  }

  /** A declaration that is not accepted decides for all of them. */
  lemma Undeclared(decls: seq<Decl>, k: nat)
    requires k < |decls| && WellDeclared(decls[..k])
    requires decls[k].Tagged? && (!Declares(decls[k]) || exists i :: 0 <= i < k && SameID(decls[i], decls[k]))
    ensures !WellDeclared(decls) && forall j :: TrapAt(decls, j) ==> j == k
  {
    hide Declares, Begins, SameID;
    forall j: nat | TrapAt(decls, j) ensures j == k {
      if j < k {
        PrefixDeclares(decls, k, j);
        TrapDoesNotDeclare(decls[j]);
      } else if k < j {
        PrefixDeclares(decls, j, k);
      }
    }
  }

  lemma PrefixDeclares(decls: seq<Decl>, n: nat, k: nat)
    requires k < n <= |decls| && WellDeclared(decls[..n])
    ensures decls[k].Ignored? || Declares(decls[k])
    ensures forall i :: 0 <= i < k ==> !SameID(decls[i], decls[k])
  {
    hide Declares, SameID;
    var c := decls[..n];
    assert c[k] == decls[k] && forall i :: 0 <= i < k ==> c[i] == decls[i];
  }

  lemma NoneDeclared(decls: seq<Decl>)
    ensures WellDeclared(decls[..0]) && Declared(decls[..0]) == []
  {
  }

  /** One more declaration. */
  lemma DeclaresOneMore(decls: seq<Decl>, k: nat)
    requires k < |decls| && WellDeclared(decls[..k]) && (decls[k].Ignored? || Declares(decls[k]))
    requires forall i :: 0 <= i < k ==> !SameID(decls[i], decls[k])
    ensures WellDeclared(decls[..k + 1])
    ensures Declared(decls[..k + 1]) == Declared(decls[..k]) + (if decls[k].Ignored? then [] else [FieldOf(decls[k])])
  {
    hide Declares, SameID, FieldOf;
    assert decls[..k + 1][..k] == decls[..k];
  }

  lemma TrapDoesNotDeclare(d: Decl)
    requires d.Tagged? && ParsedType(d).Panic?
    ensures !Declares(d)
  {
  }

  /** The fields sorted by ID, if all declarations are in order. */
  method DoResolveFields(decls: seq<Decl>) returns (r: Resolution)
    ensures r.Fields? <==> WellDeclared(decls)
    ensures r.Fields? ==> Ascending(r.fields) && multiset(r.fields) == multiset(Declared(decls))
    ensures r.Panic? <==> exists k :: TrapAt(decls, k)
  {
    hide ParsedType, FT.ToType, Declared, NoCopyOption, PointerAllowed;
    NoneDeclared(decls);
    var ids: set<nat> := {};
    var ret: seq<Field> := [];
    var k := 0;
    while k < |decls|
      invariant 0 <= k <= |decls|
      invariant WellDeclared(decls[..k])
      invariant forall i, id :: 0 <= i < k && HasID(decls[i], id) ==> id in ids
      invariant forall id :: id in ids ==> exists i :: 0 <= i < k && HasID(decls[i], id)
      invariant ret == Declared(decls[..k])
    {
      var d := decls[k];
      if d.Tagged? {
        if d.id.None? || d.id.value > 0xFFFF {
          Undeclared(decls, k);
          return Refused;
        }
        if d.id.value in ids {
          ghost var i :| 0 <= i < k && HasID(decls[i], d.id.value);
          assert SameID(decls[i], d);
          Undeclared(decls, k);
          return Refused;
        }
        ids := ids + {d.id.value};
        if d.spec.None? {
          Undeclared(decls, k);
          return Refused;
        }
        var parsed := ParsedType(d);
        if !parsed.Ok? {
          Undeclared(decls, k);
          assert parsed.Panic? ==> TrapAt(decls, k);
          return if parsed.Panic? then Panic else Refused;
        }
        var t := FT.ToType(parsed.t);
        var noCopy := NoCopyOption(t, d.options);
        if !PointerAllowed(d.spec.value, parsed.t) || noCopy.None? {
          Undeclared(decls, k);
          return Refused;
        }
        ret := ret + [Field(d.id.value, t, d.spec.value, noCopy.value)];
      }
      DeclaresOneMore(decls, k);
      k := k + 1;
    }
    assert decls[..k] == decls;
    DeclaredDistinct(decls);
    SortByIDSorts(ret);
    NoTrap(decls);
    return Fields(SortByID(ret));
  }

  lemma NoTrap(decls: seq<Decl>)
    requires WellDeclared(decls)
    ensures forall k :: !TrapAt(decls, k)
  {
    forall k: nat | TrapAt(decls, k) ensures false {
      TrapDoesNotDeclare(decls[k]);
    }
  }

  lemma {:induction false} DeclaredDistinct(decls: seq<Decl>)
    requires WellDeclared(decls)
    ensures DistinctIDs(Declared(decls))
    ensures forall f :: f in Declared(decls) ==>
      exists i :: 0 <= i < |decls| && decls[i].Tagged? && FieldOf(decls[i]) == f
  {
    if decls != [] {
      var l := |decls| - 1;
      DeclaredDistinct(decls[..l]);
      forall f | f in Declared(decls[..l])
        ensures exists i :: 0 <= i < |decls| && decls[i].Tagged? && FieldOf(decls[i]) == f
        ensures decls[l].Tagged? ==> f.id != decls[l].id.value
      {
        var i :| 0 <= i < l && decls[..l][i].Tagged? && FieldOf(decls[..l][i]) == f;
        assert decls[i].Tagged? && FieldOf(decls[i]) == f;
        assert !SameID(decls[i], decls[l]);
      }
      if decls[l].Tagged? {
        assert FieldOf(decls[l]) == Declared(decls)[|Declared(decls)| - 1];
      }
    }
  }

  /** A string or []byte, or a pointer to one. */
  predicate IsText(vt: TP.GoType) {
    match vt
    case Basic(kind, _, _) => kind == TP.KString
    case Slice(e, _) => e == TP.BYTE
    case Ptr(e) => IsText(e)
    case _ => false
  }

  lemma {:induction false} TextOver(t: TP.Type, vt: TP.GoType)
    requires TP.Over(t, vt) && FT.WellFormed(t)
    ensures WireType(FT.ToType(t)) == 11 <==> IsText(vt)
    decreases t
  {
    if t.PtrTo? {
      TextOver(t.V, vt.elem);
    }
  }

  lemma PointerOver(t: TP.Type, vt: TP.GoType)
    requires TP.Over(t, vt)
    ensures t.PtrTo? <==> vt.Ptr?
    ensures TP.IsPtrToStruct(t) <==> vt.Ptr? && vt.elem.Struct?
  {
  }

  /**
    What a declaration must be, told by its Go type: the ID has 16 bits, a field that is not
    optional is no pointer to anything but a struct, and nocopy stands alone on a string or
    []byte.
   */
  lemma DeclaresByGoType(d: Decl)
    requires d.Tagged?
    ensures Declares(d) <==>
      && d.id.Some? && d.id.value < 65536 && d.spec.Some? && ParsedType(d).Ok?
      && (d.spec.value == Optional || !d.vt.Ptr? || d.vt.elem.Struct?)
      && (d.options == [] || (d.options == ["nocopy"] && IsText(d.vt)))
  {
    hide TP.ParseType, FT.ToType, TP.Over, FT.WellFormed, TP.IsPtrToStruct, IsText;
    if ParsedType(d).Ok? {
      TP.ParsedIsOver(d.vt, d.typ != "", d.typ, true);
      FT.ParsedIsWellFormed(d.vt, d.typ != "", d.typ, true);
      TextOver(ParsedType(d).t, d.vt);
      PointerOver(ParsedType(d).t, d.vt);
    }
  }

  /** What an accepted declaration declares. */
  lemma DeclaredField(d: Decl)
    requires Declares(d)
    ensures var f := FieldOf(d);
      && f.id == d.id.value && f.spec == d.spec.value && f.typ == FT.ToType(ParsedType(d).t)
      && (f.noCopy <==> d.options == ["nocopy"])
  {
    hide TP.ParseType, FT.ToType;
  }

  /** The codec works on a declared field with the size of its Go type and the code of its tag. */
  lemma DeclaredLayout(d: Decl)
    requires Declares(d)
    ensures WireType(FieldOf(d).typ) == Layout.ThriftCode(ParsedType(d).t)
    ensures !d.vt.Struct? ==> FastPaths.GoSize(FieldOf(d).typ) == Layout.SizeInMemory(d.vt)
  {
    hide TP.ParseType, FT.ToType;
    Layout.ParsedLayout(d.vt, d.typ);
  }

  lemma {:induction false} AllDeclared(decls: seq<Decl>, i: nat)
    requires WellDeclared(decls) && i < |decls| && decls[i].Tagged?
    ensures FieldOf(decls[i]) in Declared(decls)
  {
    hide FieldOf, Declares;
    var l := |decls| - 1;
    if i < l {
      assert decls[..l][i] == decls[i];
      AllDeclared(decls[..l], i);
    }
  }

  /** A declared field is as the codec expects it if and only if its type is uniform. */
  lemma FieldOfUniform(d: Decl)
    requires Declares(d)
    ensures ResolvedField(FieldOf(d)) <==> FT.Uniform(ParsedType(d).t)
  {
    hide TP.ParseType, FieldType, FT.ToType, FT.Uniform;
    FT.ParsedFieldType(d.vt, d.typ);
    FT.ParsedIsWellFormed(d.vt, d.typ != "", d.typ, true);
    BehindPointer(ParsedType(d).t, d.spec.value);
  }

  lemma BehindPointer(t: TP.Type, spec: Requiredness)
    requires FT.WellFormed(t) && PointerAllowed(spec, t)
    ensures FT.Uniform(t) && FT.ToType(t).TPtr? ==> spec == Optional
  {
  }

  /**
    What the codec relies on holds of the resolved fields if and only if every declared type is
    uniform: pointers lead to scalars, strings or structs, and no struct is held by value.
   */
  lemma ResolvedFields(decls: seq<Decl>, ff: seq<Field>)
    requires WellDeclared(decls) && Ascending(ff) && multiset(ff) == multiset(Declared(decls))
    ensures Resolved(ff) <==> forall i :: 0 <= i < |decls| && decls[i].Tagged? ==> FT.Uniform(ParsedType(decls[i]).t)
    ensures forall i :: 0 <= i < |ff| ==> ff[i].id <= 0xFFFF
  {
    hide ResolvedField, FT.Uniform, ParsedType, FieldOf;
    forall i | 0 <= i < |ff|
      ensures ff[i].id <= 0xFFFF
      ensures exists k :: 0 <= k < |decls| && decls[k].Tagged? && FieldOf(decls[k]) == ff[i]
    {
      assert ff[i] in multiset(ff) && ff[i] in Declared(decls);
      DeclaredDistinct(decls);
      var k :| 0 <= k < |decls| && decls[k].Tagged? && FieldOf(decls[k]) == ff[i];
      IDInRange(decls[k]);
    }
    forall k | 0 <= k < |decls| && decls[k].Tagged?
      ensures FieldOf(decls[k]) in ff && (ResolvedField(FieldOf(decls[k])) <==> FT.Uniform(ParsedType(decls[k]).t))
    {
      AllDeclared(decls, k);
      assert FieldOf(decls[k]) in multiset(ff);
      FieldOfUniform(decls[k]);
    }
  }

  lemma IDInRange(d: Decl)
    requires Declares(d)
    ensures FieldOf(d).id <= 0xFFFF
  {
    hide TP.ParseType;
  }

  // ----- fromDefsFields

  /** The tables of a structDesc while they are filled in. */
  class Tables {
    var maxID: nat
    var fieldIdx: array<int>
    var fields: seq<Field>
    var fixedLen: nat
    var varLen: seq<nat>
    var required: seq<nat>

    constructor ()
      ensures fixedLen == 0
    {
      maxID, fieldIdx, fields, fixedLen, varLen, required := 0, new int[0], [], 0, [], [];
    }

    /** The finished descriptor of a struct with the given defaults. */
    function Descriptor(hasInit: bool, init: seq<Value>, hasUnknown: bool): RawDesc
      reads this, fieldIdx
    {
      Desc(fields, maxID, fieldIdx[..], fixedLen, varLen, required, hasInit, init, hasUnknown)
    }

    /**
      Fills in the tables; false where the code panics. That happens for the ID 65535, since
      maxFieldID + 1 is computed in 16 bits and the index is then empty.
     */
    method FromDefsFields(ff: seq<Field>, hasInit: bool, init: seq<Value>, hasUnknown: bool) returns (ok: bool)
      requires Resolved(ff) && forall i :: 0 <= i < |ff| ==> ff[i].id <= 0xFFFF
      requires fixedLen == 0 && |init| == |ff|
      modifies this
      ensures ok <==> forall i :: 0 <= i < |ff| ==> ff[i].id < 0xFFFF
      ensures ok ==> fields == ff && Built(Descriptor(hasInit, init, hasUnknown))
    {
      maxID := MaxID(ff);
      var size := (maxID + 1) % 0x1_0000;
      fieldIdx := new int[size](_ => -1);
      ok := FillIndex(ff);
      if !ok {
        return;
      }
      fields := ff;
      FillLengths();
    }

    static method MaxID(ff: seq<Field>) returns (m: nat)
      requires forall i :: 0 <= i < |ff| ==> ff[i].id <= 0xFFFF
      ensures m <= 0xFFFF && forall i :: 0 <= i < |ff| ==> ff[i].id <= m
      ensures if ff == [] then m == 0 else exists i :: 0 <= i < |ff| && ff[i].id == m
    {
      m := 0;
      var k := 0;
      while k < |ff|
        invariant 0 <= k <= |ff| && m <= 0xFFFF
        invariant forall i :: 0 <= i < k ==> ff[i].id <= m
        invariant m == 0 || exists i :: 0 <= i < k && ff[i].id == m
      {
        if ff[k].id > m {
          m := ff[k].id;
        }
        k := k + 1;
      }
      if m == 0 && ff != [] {
        assert ff[0].id == m;
      }
    }

    method FillIndex(ff: seq<Field>) returns (ok: bool)
      requires forall i, j :: 0 <= i < j < |ff| ==> ff[i].id < ff[j].id
      requires forall k :: 0 <= k < fieldIdx.Length ==> fieldIdx[k] == -1
      modifies fieldIdx
      ensures ok <==> forall i :: 0 <= i < |ff| ==> ff[i].id < fieldIdx.Length
      ensures ok && fieldIdx.Length == maxID + 1 ==> Indexed(ff, maxID, fieldIdx[..])
    {
      var k := 0;
      while k < |ff|
        invariant 0 <= k <= |ff|
        invariant forall i :: 0 <= i < k ==> ff[i].id < fieldIdx.Length && fieldIdx[ff[i].id] == i
        invariant forall id :: 0 <= id < fieldIdx.Length ==>
          -1 <= fieldIdx[id] < k && (fieldIdx[id] >= 0 ==> ff[fieldIdx[id]].id == id)
      {
        if ff[k].id >= fieldIdx.Length {
          return false;
        }
        fieldIdx[ff[k].id] := k;
        k := k + 1;
      }
      return true;
    }

    method FillLengths()
      requires fixedLen == 0
      modifies this
      ensures fields == old(fields) && maxID == old(maxID) && fieldIdx == old(fieldIdx)
      ensures fixedLen == SumFixed(fields) && varLen == VarFields(fields) && required == RequiredIDs(fields)
    {
      varLen, required := [], [];
      var k := 0;
      while k < |fields|
        invariant 0 <= k <= |fields|
        invariant fields == old(fields) && maxID == old(maxID) && fieldIdx == old(fieldIdx)
        invariant fixedLen == SumFixed(fields[..k])
        invariant varLen == VarFields(fields[..k])
        invariant required == RequiredIDs(fields[..k])
      {
        var f := fields[k];
        assert fields[..k + 1][..k] == fields[..k];
        var n := FixedFieldLen(f);
        if n > 0 {
          fixedLen := fixedLen + n;
        } else {
          varLen := varLen + [k];
        }
        if f.spec == Required {
          required := required + [f.id];
        }
        k := k + 1;
      }
      assert fields[..k] == fields;
    }
  }

  /** GetField finds the fields of the struct and nothing else. */
  lemma GetFieldExact(sd: StructDesc, fid: nat)
    ensures GetField(sd, fid).Some? <==> exists i :: 0 <= i < |sd.fields| && sd.fields[i].id == fid
    ensures forall i :: 0 <= i < |sd.fields| ==> GetField(sd, sd.fields[i].id) == Some(i)
  {
    forall i | 0 <= i < |sd.fields| ensures GetField(sd, sd.fields[i].id) == Some(i) {
      assert sd.fieldIdx[sd.fields[i].id] == i;
    }
  }
}
