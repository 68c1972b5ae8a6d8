/**
  Encodings are self-delimiting: what the reference reader accepts at the start of a buffer
  depends on the bytes it consumes and on nothing behind them, and the wire type alone
  determines how many bytes those are.
 */
module SelfDelimiting {
  import opened Common
  import opened BigEndian
  import opened Schema
  import opened Skip
  import opened Reference

  lemma GetFixedLocal(t: Type, b: seq<Byte>, c: seq<Byte>)
    requires 0 < FixedSize(t) && Agree(b, c, FixedSize(t))
    ensures GetFixed(t, b) == GetFixed(t, c)
  {
    hide Built;
    if t.TPtr? {
      GetFixedLocal(t.pointee, b, c);
    } else if FixedSize(t) == 8 {
      AgreeDrop(b, c, 8, 4);
    }
  }

  lemma ReadStringLocal(b: seq<Byte>, c: seq<Byte>, m: nat, cost: nat)
    requires Agree(b, c, m) && ReadString(b, cost).Some? && ReadString(b, cost).value.n <= m
    ensures ReadString(c, cost) == ReadString(b, cost)
  {
    hide Built;
    var n := ReadString(b, cost).value.n;
    assert b[4..n] == c[4..n];
  }

  lemma {:induction false} ReadValueLocal(S: Schema, t: Type, b: seq<Byte>, c: seq<Byte>, m: nat)
    requires Agree(b, c, m) && ReadValue(S, t, b).Some? && ReadValue(S, t, b).value.n <= m
    ensures ReadValue(S, t, c) == ReadValue(S, t, b)
    decreases |b|, 4, t
  {
    hide ReadList, ReadMap;
    if FixedSize(t) > 0 {
      GetFixedLocal(t, b, c);
    } else {
      match t
      case TPtr(e) => ReadValueLocal(S, e, b, c, m);
      case TStruct(name) => ReadStructLocal(S, S[name], b, c, m, Fresh(S[name]));
      case TMap(kt, vt) => ReadMapLocal(S, kt, vt, b, c, m);
      case TSet(et) => ReadListLocal(S, et, b, c, m);
      case TList(et) => ReadListLocal(S, et, b, c, m);
      case TString => ReadStringLocal(b, c, m, 1);
      case TBinary => ReadStringLocal(b, c, m, 1);
    }
  }

  lemma {:induction false} ReadMapLocal(S: Schema, kt: Type, vt: Type, b: seq<Byte>, c: seq<Byte>, m: nat)
    requires Agree(b, c, m) && ReadMap(S, kt, vt, b).Some? && ReadMap(S, kt, vt, b).value.n <= m
    ensures ReadMap(S, kt, vt, c) == ReadMap(S, kt, vt, b)
    decreases |b|, 3
  {
    hide ReadEntries, PutAll, Built;
    AgreeDrop(b, c, m, 6);
    ReadEntriesLocal(S, kt, vt, b[6..], c[6..], m - 6, Get32(b[2..]));
  }

  lemma {:induction false} ReadListLocal(S: Schema, et: Type, b: seq<Byte>, c: seq<Byte>, m: nat)
    requires Agree(b, c, m) && ReadList(S, et, b).Some? && ReadList(S, et, b).value.n <= m
    ensures ReadList(S, et, c) == ReadList(S, et, b)
    decreases |b|, 2
  {
    hide ReadElems, Built;
    AgreeDrop(b, c, m, 5);
    ReadElemsLocal(S, et, b[5..], c[5..], m - 5, Get32(b[1..]));
  }

  lemma {:induction false} ReadElemsLocal(S: Schema, et: Type, b: seq<Byte>, c: seq<Byte>, m: nat, l: nat)
    requires Agree(b, c, m) && ReadElems(S, et, b, l).Some? && ReadElems(S, et, b, l).value.n <= m
    ensures ReadElems(S, et, c, l) == ReadElems(S, et, b, l)
    decreases |b|, 5, l
  {
    hide ReadValue, Built;
    if l > 0 {
      var k := ReadValue(S, et, b).value.n;
      ReadValueLocal(S, et, b, c, m);
      AgreeDrop(b, c, m, k);
      ReadElemsLocal(S, et, b[k..], c[k..], m - k, l - 1);
    }
  }

  lemma {:induction false} ReadEntryLocal(S: Schema, kt: Type, vt: Type, b: seq<Byte>, c: seq<Byte>, m: nat)
    requires Agree(b, c, m) && ReadEntry(S, kt, vt, b).Some? && ReadEntry(S, kt, vt, b).value.n <= m
    ensures ReadEntry(S, kt, vt, c) == ReadEntry(S, kt, vt, b)
    decreases |b|, 5, 0
  {
    hide ReadValue, Built;
    var k := ReadValue(S, kt, b).value.n;
    ReadValueLocal(S, kt, b, c, m);
    AgreeDrop(b, c, m, k);
    ReadValueLocal(S, vt, b[k..], c[k..], m - k);
  }

  lemma {:induction false} ReadEntriesLocal(S: Schema, kt: Type, vt: Type, b: seq<Byte>, c: seq<Byte>, m: nat, l: nat)
    requires Agree(b, c, m) && ReadEntries(S, kt, vt, b, l).Some? && ReadEntries(S, kt, vt, b, l).value.n <= m
    ensures ReadEntries(S, kt, vt, c, l) == ReadEntries(S, kt, vt, b, l)
    decreases |b|, 6, l
  {
    hide ReadEntry, Built;
    if l > 0 {
      var k := ReadEntry(S, kt, vt, b).value.n;
      ReadEntryLocal(S, kt, vt, b, c, m);
      AgreeDrop(b, c, m, k);
      ReadEntriesLocal(S, kt, vt, b[k..], c[k..], m - k, l - 1);
    }
  }

  lemma {:induction false} ReadFieldValueLocal(S: Schema, f: Field, b: seq<Byte>, c: seq<Byte>, m: nat)
    requires Agree(b, c, m) && ReadFieldValue(S, f, b).Some? && ReadFieldValue(S, f, b).value.n <= m
    ensures ReadFieldValue(S, f, c) == ReadFieldValue(S, f, b)
    decreases |b|, 5
  {
    hide Built;
    if FixedSize(f.typ) == 0 && f.noCopy {
      ReadStringLocal(b, c, m, 0);
    } else {
      ReadValueLocal(S, f.typ, b, c, m);
    }
  }

  lemma {:induction false} ReadFieldLocal(S: Schema, sd: StructDesc, b: seq<Byte>, c: seq<Byte>, m: nat, p: Partial)
    requires |p.fields| == |sd.fields|
    requires Agree(b, c, m) && ReadField(S, sd, b, p).Some? && ReadField(S, sd, b, p).value.n <= m
    ensures ReadField(S, sd, c, p) == ReadField(S, sd, b, p)
    decreases |b|, 0
  {
    hide ReadFieldValue, SkipValue, Built;
    AgreeDrop(b, c, m, 3);
    match KnownField(sd, b[0], Get16(b[1..]))
    case None =>
      SkipValueLocal(b[0], b[3..], c[3..], m - 3);
      var n := 3 + SkipValue(b[0], b[3..]).value;
      assert b[..n] == c[..n];
    case Some(i) =>
      ReadFieldValueLocal(S, sd.fields[i], b[3..], c[3..], m - 3);
  }

  lemma {:induction false} ReadFieldsLocal(S: Schema, sd: StructDesc, b: seq<Byte>, c: seq<Byte>, m: nat, p: Partial)
    requires |p.fields| == |sd.fields|
    requires Agree(b, c, m) && ReadFields(S, sd, b, p).Some? && ReadFields(S, sd, b, p).value.n <= m
    ensures ReadFields(S, sd, c, p) == ReadFields(S, sd, b, p)
    decreases |b|, 1
  {
    hide ReadField, Built;
    if b[0] != STOP {
      var h := ReadField(S, sd, b, p).value;
      ReadFieldLocal(S, sd, b, c, m, p);
      AgreeDrop(b, c, m, h.n);
      assert ReadField(S, sd, c, p).value == h;
      ReadFieldsLocal(S, sd, b[h.n..], c[h.n..], m - h.n, h.val);
    }
  }

  lemma {:induction false} ReadStructLocal(S: Schema, sd: StructDesc, b: seq<Byte>, c: seq<Byte>, m: nat, target: Value)
    requires target.Struct? && |target.fields| == |sd.fields|
    requires Agree(b, c, m) && ReadStruct(S, sd, b, target).Some? && ReadStruct(S, sd, b, target).value.n <= m
    ensures ReadStruct(S, sd, c, target) == ReadStruct(S, sd, b, target)
    decreases |b|, 2
  {
    hide ReadFields, Built;
    ReadFieldsLocal(S, sd, b, c, m, Partial(target.fields, [], {}));
  }

  // ----- The wire type determines the length.

  lemma {:induction false} ReadValueSkips(S: Schema, t: Type, b: seq<Byte>)
    requires ReadValue(S, t, b).Some?
    ensures SkipValue(WireType(t), b) == Some(ReadValue(S, t, b).value.n)
    decreases |b|, 4, t
  {
    hide SkipFields, SkipElems, SkipPairs, ReadList, ReadMap, ReadNested, Built;
    if FixedSize(t) > 0 {
      FixedSizeIsWireSize(t);
    } else {
      match t
      case TPtr(e) => ReadValueSkips(S, e, b);
      case TStruct(name) => ReadNestedSkips(S, name, b);
      case TMap(kt, vt) => ReadMapSkips(S, kt, vt, b);
      case TSet(et) => ReadListSkips(S, et, b, WT_SET);
      case TList(et) => ReadListSkips(S, et, b, WT_LIST);
      case TString =>
      case TBinary =>
    }
  }

  lemma {:induction false} ReadNestedSkips(S: Schema, name: Name, b: seq<Byte>)
    requires ReadNested(S, name, b).Some?
    ensures SkipValue(WT_STRUCT, b) == Some(ReadNested(S, name, b).value.n)
    decreases |b|, 3
  {
    hide ReadFields, SkipFields;
    ReadFieldsSkips(S, S[name], b, Partial(S[name].init, [], {}));
  }

  lemma {:induction false} ReadMapSkips(S: Schema, kt: Type, vt: Type, b: seq<Byte>)
    requires ReadMap(S, kt, vt, b).Some?
    ensures SkipValue(WT_MAP, b) == Some(ReadMap(S, kt, vt, b).value.n)
    decreases |b|, 3
  {
    hide ReadEntries, SkipPairs, PutAll, Built;
    ReadEntriesSkips(S, kt, vt, b[6..], Get32(b[2..]));
  }

  lemma {:induction false} ReadListSkips(S: Schema, et: Type, b: seq<Byte>, wt: Byte)
    requires ReadList(S, et, b).Some? && (wt == WT_SET || wt == WT_LIST)
    ensures SkipValue(wt, b) == Some(ReadList(S, et, b).value.n)
    decreases |b|, 3
  {
    hide ReadElems, SkipElems, Built;
    ReadElemsSkips(S, et, b[5..], Get32(b[1..]));
  }

  lemma {:induction false} ReadElemsSkips(S: Schema, et: Type, b: seq<Byte>, l: nat)
    requires ReadElems(S, et, b, l).Some?
    ensures SkipElems(WireType(et), b, l) == Some(ReadElems(S, et, b, l).value.n)
    decreases |b|, 5, l
  {
    hide ReadValue, SkipValue, Built;
    if l > 0 {
      ReadValueSkips(S, et, b);
      ReadElemsSkips(S, et, b[ReadValue(S, et, b).value.n..], l - 1);
    }
  }

  lemma {:induction false} ReadEntrySkips(S: Schema, kt: Type, vt: Type, b: seq<Byte>)
    requires ReadEntry(S, kt, vt, b).Some?
    ensures SkipPair(WireType(kt), WireType(vt), b) == Some(ReadEntry(S, kt, vt, b).value.n)
    decreases |b|, 5, 0
  {
    hide ReadValue, SkipValue, Built;
    ReadValueSkips(S, kt, b);
    ReadValueSkips(S, vt, b[ReadValue(S, kt, b).value.n..]);
  }

  lemma {:induction false} ReadEntriesSkips(S: Schema, kt: Type, vt: Type, b: seq<Byte>, l: nat)
    requires ReadEntries(S, kt, vt, b, l).Some?
    ensures SkipPairs(WireType(kt), WireType(vt), b, l) == Some(ReadEntries(S, kt, vt, b, l).value.n)
    decreases |b|, 6, l
  {
    hide ReadEntry, SkipPair, Built;
    if l > 0 {
      ReadEntrySkips(S, kt, vt, b);
      ReadEntriesSkips(S, kt, vt, b[ReadEntry(S, kt, vt, b).value.n..], l - 1);
    }
  }

  lemma {:induction false} ReadFieldSkips(S: Schema, sd: StructDesc, b: seq<Byte>, p: Partial)
    requires |p.fields| == |sd.fields| && ReadField(S, sd, b, p).Some?
    ensures SkipValue(b[0], b[3..]) == Some(ReadField(S, sd, b, p).value.n - 3)
    decreases |b|, 0
  {
    hide ReadValue, SkipElems, SkipPairs, SkipFields;
    match KnownField(sd, b[0], Get16(b[1..]))
    case None =>
    case Some(i) =>
      if FixedSize(sd.fields[i].typ) > 0 || !sd.fields[i].noCopy {
        ReadValueSkips(S, sd.fields[i].typ, b[3..]);
      }
  }

  lemma {:induction false} ReadFieldsSkips(S: Schema, sd: StructDesc, b: seq<Byte>, p: Partial)
    requires |p.fields| == |sd.fields| && ReadFields(S, sd, b, p).Some?
    ensures SkipFields(b) == Some(ReadFields(S, sd, b, p).value.n)
    decreases |b|, 1
  {
    hide ReadField, SkipValue, Built;
    if b[0] != STOP {
      var h := ReadField(S, sd, b, p).value;
      var rest := b[h.n..];
      var r := ReadFields(S, sd, rest, h.val);
      assert ReadFields(S, sd, b, p) == Then(h, r);
      ReadFieldSkips(S, sd, b, p);
      ReadFieldsSkips(S, sd, rest, h.val);
      assert SkipFields(b) == Plus(h.n, Some(r.value.n));
    }
  }

  lemma MinWireSizeBound(wt: Byte, b: seq<Byte>)
    requires SkipValue(wt, b).Some?
    ensures 1 <= MinWireSize(wt) <= SkipValue(wt, b).value
  {
  }

  /** The floor-division test of a list header passes whenever the elements are there. */
  lemma {:induction false} SkipElemsBound(wt: Byte, b: seq<Byte>, l: nat)
    requires SkipElems(wt, b, l).Some?
    ensures l * MinWireSize(wt) <= SkipElems(wt, b, l).value
    decreases l
  {
    hide Built;
    if l > 0 {
      MinWireSizeBound(wt, b);
      SkipElemsBound(wt, b[SkipValue(wt, b).value..], l - 1);
      assert l * MinWireSize(wt) == (l - 1) * MinWireSize(wt) + MinWireSize(wt);
    }
  }

  lemma {:induction false} SkipPairsBound(kt: Byte, vt: Byte, b: seq<Byte>, l: nat)
    requires SkipPairs(kt, vt, b, l).Some?
    ensures l * (MinWireSize(kt) + MinWireSize(vt)) <= SkipPairs(kt, vt, b, l).value
    decreases l
  {
    hide Built;
    if l > 0 {
      var s := MinWireSize(kt) + MinWireSize(vt);
      var n := SkipValue(kt, b).value;
      MinWireSizeBound(kt, b);
      MinWireSizeBound(vt, b[n..]);
      SkipPairsBound(kt, vt, b[SkipPair(kt, vt, b).value..], l - 1);
      assert l * s == (l - 1) * s + s;
    }
  }

}
