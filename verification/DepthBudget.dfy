/**
  The decoder against the reference reader. With a budget of at least the cost of the input
  the decoder accepts exactly what the reader accepts, with the same value and length: the
  length pre-checks reject nothing that could be read. With less budget it reports the
  depth limit.
 */
module DepthBudget {
  import opened Common
  import opened BigEndian
  import opened Schema
  import opened Skip
  import opened Reference
  import opened SelfDelimiting
  import opened Decoding

  /** The decoder, started at offset `i` with budget `depth`, does what `r` says. */
  ghost predicate Meets<A>(o: Outcome<A>, r: Option<Read<A>>, i: nat, depth: nat) {
    match r
    case None => !o.Ok?
    case Some(x) => if x.cost <= depth then o == Ok(x.val, i + x.n) else o.Err? && o.kind == DepthLimit
  }

  /** What follows an item within the budget decides; an item over the budget is reported. */
  lemma ThenMeets<A, B>(h: Read<A>, o: Outcome<B>, r: Option<Read<B>>, i: nat, depth: nat)
    requires if h.cost <= depth then Meets(o, r, i + h.n, depth) else o.Err? && o.kind == DepthLimit
    ensures Meets(o, Then(h, r), i, depth)
  {
  }

  lemma StringMeets(b: seq<Byte>, cost: nat, depth: nat)
    requires cost <= depth
    ensures Meets(DecodeString(b), ReadString(b, cost), 0, depth)
  {
    hide Built;
    if |b| >= 4 {
      assert b[4..4] == [];
    }
  }

  lemma {:induction false} TypeMeets(S: Schema, t: Type, b: seq<Byte>, depth: nat)
    requires FixedSize(t) == 0
    ensures Meets(DecodeType(S, t, b, depth), ReadValue(S, t, b), 0, depth)
    decreases depth, 4, t
  {
    hide DecodeMap, DecodeList, DecodeStruct, DecodeString, ReadList, ReadMap, ReadStruct, ReadString;
    if depth == 0 {
      if ReadValue(S, t, b).Some? {
        CostPositive(S, t, b);
      }
    } else {
      match t
      case TPtr(e) => TypeMeets(S, e, b, depth);
      case TStruct(name) => if name in S { StructMeets(S, S[name], b, Fresh(S[name]), depth - 1); }
      case TMap(kt, vt) => MapMeets(S, kt, vt, b, depth);
      case TSet(et) => ListMeets(S, et, b, depth);
      case TList(et) => ListMeets(S, et, b, depth);
      case TString => StringMeets(b, 1, depth);
      case TBinary => StringMeets(b, 1, depth);
    }
  }

  lemma {:induction false} CostPositive(S: Schema, t: Type, b: seq<Byte>)
    requires FixedSize(t) == 0 && ReadValue(S, t, b).Some?
    ensures ReadValue(S, t, b).value.cost > 0
    decreases t
  {
    hide ReadStruct, ReadEntries, ReadElems, Built;
    if t.TPtr? {
      CostPositive(S, t.pointee, b);
    }
  }

  lemma {:induction false} ElemMeets(S: Schema, t: Type, b: seq<Byte>, depth: nat)
    ensures Meets(DecodeElem(S, t, b, depth), ReadValue(S, t, b), 0, depth)
    decreases depth, 5
  {
    hide DecodeType, Built;
    if FixedSize(t) == 0 {
      TypeMeets(S, t, b, depth);
    }
  }

  lemma {:induction false} ListMeets(S: Schema, et: Type, b: seq<Byte>, depth: nat)
    requires depth > 0
    ensures Meets(DecodeList(S, et, b, depth), ReadList(S, et, b), 0, depth)
    decreases depth, 3
  {
    hide DecodeElems, ReadElems, Get32, Room, MinWireSize, WireType, Built;
    if |b| >= 5 {
      var l := Get32(b[1..]);
      var r := ReadElems(S, et, b[5..], l);
      ElemsMeets(S, et, b, 5, l, [], depth - 1);
      if l == 0 {
        NoElems(S, et, b[5..]);
      } else if r.Some? {
        ElemsFit(S, et, b[5..], l);
        assert [] + r.value.val == r.value.val;
      }
    }
  }

  /** The pre-check of a list length passes when the elements can be read. */
  lemma ElemsFit(S: Schema, et: Type, b: seq<Byte>, l: nat)
    requires l > 0 && ReadElems(S, et, b, l).Some?
    ensures l <= Room(|b|, MinWireSize(WireType(et)))
  {
    hide ReadElems, SkipElems, Built;
    ReadElemsSkips(S, et, b, l);
    SkipElemsBound(WireType(et), b, l);
    WireTypeHasSize(et);
    Quotient(l, MinWireSize(WireType(et)), |b|);
  }

  lemma WireTypeHasSize(t: Type)
    ensures MinWireSize(WireType(t)) > 0
  {
  }

  lemma Quotient(l: nat, m: nat, r: nat)
    requires m > 0 && l * m <= r
    ensures l <= r / m
  {
    hide Built;
    var q := r / m;
    assert r < q * m + m;
    if q + 1 <= l {
      Monotone(q + 1, l, m);
    }
  }

  lemma {:induction false} MapMeets(S: Schema, kt: Type, vt: Type, b: seq<Byte>, depth: nat)
    requires depth > 0
    ensures Meets(DecodeMap(S, kt, vt, b, depth), ReadMap(S, kt, vt, b), 0, depth)
    decreases depth, 3
  {
    hide DecodeEntries, ReadEntries, PutAll, Get32, Room, MinWireSize, WireType, Built;
    if |b| >= 6 {
      var l := Get32(b[2..]);
      EntriesMeets(S, kt, vt, b, 6, l, [], depth - 1);
      EntriesFit(S, kt, vt, b[6..], l);
    }
  }

  /** The pre-check of a map length passes when the entries can be read. */
  lemma EntriesFit(S: Schema, kt: Type, vt: Type, b: seq<Byte>, l: nat)
    ensures ReadEntries(S, kt, vt, b, l).Some? ==> l <= Room(|b|, MinWireSize(WireType(kt)) + MinWireSize(WireType(vt)))
  {
    hide ReadEntries, SkipPairs, Built;
    if ReadEntries(S, kt, vt, b, l).Some? {
      ReadEntriesSkips(S, kt, vt, b, l);
      SkipPairsBound(WireType(kt), WireType(vt), b, l);
      WireTypeHasSize(kt);
      Quotient(l, MinWireSize(WireType(kt)) + MinWireSize(WireType(vt)), |b|);
    }
  }

  /** The reader's elements behind those already decoded. */
  function Listed(acc: seq<Value>, r: Option<Read<seq<Value>>>): Option<Read<Value>> {
    match r
    case None => None
    case Some(x) => Some(Read(List(acc + x.val), x.n, x.cost))
  }

  /** The reader's entries put into the map already decoded. */
  function Stored(kt: Type, m: seq<Entry>, r: Option<Read<seq<Entry>>>): Option<Read<Value>> {
    match r
    case None => None
    case Some(x) => Some(Read(Map(PutAll(kt, m, x.val)), x.n, x.cost))
  }

  lemma ListedCons(acc: seq<Value>, h: Read<Value>, r: Option<Read<seq<Value>>>)
    ensures Listed(acc, Cons(h, r)) == Then(h, Listed(acc + [h.val], r))
  {
    hide Built;
    if r.Some? {
      assert acc + ([h.val] + r.value.val) == acc + [h.val] + r.value.val;
    }
  }

  lemma StoredCons(kt: Type, m: seq<Entry>, h: Read<Entry>, r: Option<Read<seq<Entry>>>)
    ensures Stored(kt, m, Cons(h, r)) == Then(h, Stored(kt, MapPut(kt, m, h.val), r))
  {
    hide MapPut, Built;
    if r.Some? {
      assert ([h.val] + r.value.val)[1..] == r.value.val;
    }
  }

  /** One step of the reader behind `acc`. */
  lemma ListedStep(S: Schema, et: Type, b: seq<Byte>, i: nat, l: nat, acc: seq<Value>)
    requires i <= |b|
    ensures Listed(acc, ReadElems(S, et, b[i..], l))
      == if l == 0 then Some(Read(List(acc), 0, 0))
         else match ReadValue(S, et, b[i..])
           case None => None
           case Some(h) => Then(h, Listed(acc + [h.val], ReadElems(S, et, b[i + h.n..], l - 1)))
  {
    hide ReadValue, Built;
    var r := ReadValue(S, et, b[i..]);
    if l == 0 {
      assert acc + [] == acc;
    } else if r.Some? {
      DropDrop(b, i, r.value.n);
      ListedCons(acc, r.value, ReadElems(S, et, b[i + r.value.n..], l - 1));
    }
  }

  lemma StoredFail(kt: Type, m: seq<Entry>)
    ensures Stored(kt, m, None).None?
  {
  }

  lemma {:induction false} ElemsMeets(S: Schema, et: Type, b: seq<Byte>, i: nat, l: nat, acc: seq<Value>, depth: nat)
    requires i <= |b|
    ensures Meets(DecodeElems(S, et, b, i, l, acc, depth), Listed(acc, ReadElems(S, et, b[i..], l)), i, depth)
    decreases depth, 6, l
  {
    hide DecodeElem, ReadValue, ReadElems, Listed, Then, Built;
    ListedStep(S, et, b, i, l, acc);
    if l > 0 {
      ElemMeets(S, et, b[i..], depth);
      if ReadValue(S, et, b[i..]).Some? {
        var h := ReadValue(S, et, b[i..]).value;
        if h.cost <= depth {
          ElemsMeets(S, et, b, i + h.n, l - 1, acc + [h.val], depth);
        }
        ThenMeets(h, DecodeElems(S, et, b, i, l, acc, depth),
                  Listed(acc + [h.val], ReadElems(S, et, b[i + h.n..], l - 1)), i, depth);
      }
    }
  }

  lemma EntryOfMeets(k: Read<Value>, o: Outcome<Value>, r: Option<Read<Value>>, depth: nat)
    requires Meets(o, r, 0, depth)
    ensures Meets(if k.cost <= depth then EntryOf(k.val, k.n, o) else Err(0, DepthLimit), WithValue(k, r), 0, depth)
  {
  }

  lemma {:induction false} EntryMeets(S: Schema, kt: Type, vt: Type, b: seq<Byte>, depth: nat)
    ensures Meets(DecodeEntry(S, kt, vt, b, depth), ReadEntry(S, kt, vt, b), 0, depth)
    decreases depth, 6, 0
  {
    hide DecodeElem, ReadValue, WithValue, EntryOf, Built;
    ElemMeets(S, kt, b, depth);
    var r := ReadValue(S, kt, b);
    if r.Some? {
      var rest := b[r.value.n..];
      ElemMeets(S, vt, rest, depth);
      EntryOfMeets(r.value, DecodeElem(S, vt, rest, depth), ReadValue(S, vt, rest), depth);
    }
  }

  lemma {:induction false} EntriesMeets(S: Schema, kt: Type, vt: Type, b: seq<Byte>, i: nat, l: nat, m: seq<Entry>,
          depth: nat)
    requires i <= |b|
    ensures Meets(DecodeEntries(S, kt, vt, b, i, l, m, depth),
                  Stored(kt, m, ReadEntries(S, kt, vt, b[i..], l)), i, depth)
    decreases depth, 7, l
  {
    hide DecodeEntry, ReadEntry, MapPut, Then, Cons, Built;
    if l > 0 {
      hide Stored;
      EntryMeets(S, kt, vt, b[i..], depth);
      if ReadEntry(S, kt, vt, b[i..]).Some? {
        var h := ReadEntry(S, kt, vt, b[i..]).value;
        DropDrop(b, i, h.n);
        StoredCons(kt, m, h, ReadEntries(S, kt, vt, b[i + h.n..], l - 1));
        if h.cost <= depth {
          EntriesMeets(S, kt, vt, b, i + h.n, l - 1, MapPut(kt, m, h.val), depth);
        }
        ThenMeets(h, DecodeEntries(S, kt, vt, b, i, l, m, depth),
                  Stored(kt, MapPut(kt, m, h.val), ReadEntries(S, kt, vt, b[i + h.n..], l - 1)), i, depth);
      } else {
        assert Stored(kt, m, None).None? by { StoredFail(kt, m); }
      }
    }
  }

  lemma {:induction false} FieldValueMeets(S: Schema, f: Field, b: seq<Byte>, depth: nat)
    ensures Meets(DecodeFieldValue(S, f, b, depth), ReadFieldValue(S, f, b), 0, depth)
    decreases depth, 6
  {
    hide DecodeElem, ReadValue, DecodeString, ReadString, Built;
    if FixedSize(f.typ) == 0 && f.noCopy {
      StringMeets(b, 0, depth);
    } else {
      ElemMeets(S, f.typ, b, depth);
    }
  }

  lemma {:induction false} FieldMeets(S: Schema, sd: StructDesc, b: seq<Byte>, p: Partial, depth: nat)
    requires |p.fields| == |sd.fields|
    ensures Meets(DecodeField(S, sd, b, p, depth), ReadField(S, sd, b, p), 0, depth)
    decreases depth, 7
  {
    hide DecodeFieldValue, ReadFieldValue, SkipValue, KnownField, Built;
    if |b| >= 3 && KnownField(sd, b[0], Get16(b[1..])).Some? {
      FieldValueMeets(S, sd.fields[KnownField(sd, b[0], Get16(b[1..])).value], b[3..], depth);
    }
  }

  lemma {:induction false} FieldsMeets(S: Schema, sd: StructDesc, b: seq<Byte>, i: nat, p: Partial, depth: nat)
    requires |p.fields| == |sd.fields| && i <= |b|
    ensures Meets(DecodeFields(S, sd, b, i, p, depth), ReadFields(S, sd, b[i..], p), i, depth)
    decreases depth, 8, |b| - i
  {
    hide DecodeField, ReadField, Then, Built;
    if i < |b| && b[i] != STOP {
      FieldMeets(S, sd, b[i..], p, depth);
      if ReadField(S, sd, b[i..], p).Some? {
        var h := ReadField(S, sd, b[i..], p).value;
        DropDrop(b, i, h.n);
        if h.cost <= depth {
          FieldsMeets(S, sd, b, i + h.n, h.val, depth);
        }
        ThenMeets(h, DecodeFields(S, sd, b, i, p, depth), ReadFields(S, sd, b[i + h.n..], h.val), i, depth);
      }
    }
  }

  lemma {:induction false} StructMeets(S: Schema, sd: StructDesc, b: seq<Byte>, target: Value, depth: nat)
    requires target.Struct? && |target.fields| == |sd.fields|
    ensures Meets(DecodeStruct(S, sd, b, target, depth), ReadStruct(S, sd, b, target), 0, depth)
    decreases depth, 2
  {
    hide DecodeFields, ReadFields, Complete, Built;
    if depth > 0 {
      assert b[0..] == b;
      FieldsMeets(S, sd, b, 0, Partial(target.fields, [], {}), depth - 1);
    }
  }
}
