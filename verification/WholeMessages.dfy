/**
  When the decoder does not panic. A message that can be skipped as one struct is decoded or
  refused with an error, whatever the schema; a message that is cut off at the end of one of
  its fields, or within the header of the next, runs over the end of the buffer.
 */
module WholeMessages {
  import opened Common
  import opened BigEndian
  import opened Schema
  import opened Skip
  import opened Reference
  import opened SelfDelimiting
  import opened Decoding
  import opened DepthBudget
  import opened Truncation

  // ----- What can be skipped does not panic.

  lemma {:induction false} SkippableType(S: Schema, t: Type, b: seq<Byte>, depth: nat)
    requires Closed(S) && NamesIn(S, t) && SkipValue(WireType(t), b).Some?
    ensures !DecodeType(S, t, b, depth).Panic?
    decreases depth, 4, t
  {
    hide DecodeString, DecodeMap, DecodeList, DecodeStruct, SkipFields;
    if depth > 0 && FixedSize(t) > 0 {
      FixedSizeIsWireSize(t);
    } else if depth > 0 {
      match t
      case TPtr(e) => SkippableType(S, e, b, depth);
      case TStruct(name) => NamedIn(S, name); SkippableStruct(S, S[name], b, Fresh(S[name]), depth - 1);
      case TMap(kt, vt) => SkippableMap(S, kt, vt, b, depth);
      case TSet(et) => SkippableList(S, et, b, depth, WT_SET);
      case TList(et) => SkippableList(S, et, b, depth, WT_LIST);
      case TString => StringDoesNotPanic(b);
      case TBinary => StringDoesNotPanic(b);
    }
  }

  lemma StringDoesNotPanic(b: seq<Byte>)
    ensures !DecodeString(b).Panic?
  {
  }

  lemma {:induction false} SkippableElem(S: Schema, t: Type, b: seq<Byte>, depth: nat)
    requires Closed(S) && NamesIn(S, t) && SkipValue(WireType(t), b).Some?
    ensures var o := DecodeElem(S, t, b, depth);
      && !o.Panic?
      && (o.Ok? ==> SkipValue(WireType(t), b) == Some(o.n))
    decreases depth, 5, t
  {
    hide DecodeType, SkipValue, ReadValue, Built;
    if FixedSize(t) > 0 {
      FixedIsThere(t, b);
    } else {
      SkippableType(S, t, b, depth);
    }
    ElemMeets(S, t, b, depth);
    if ReadValue(S, t, b).Some? {
      ReadValueSkips(S, t, b);
    }
  }

  lemma FixedIsThere(t: Type, b: seq<Byte>)
    requires FixedSize(t) > 0 && SkipValue(WireType(t), b).Some?
    ensures FixedSize(t) <= |b|
  {
    FixedSizeIsWireSize(t);
  }

  lemma {:induction false} SkippableList(S: Schema, et: Type, b: seq<Byte>, depth: nat, wt: Byte)
    requires Closed(S) && NamesIn(S, et) && depth > 0 && (wt == WT_SET || wt == WT_LIST) && SkipValue(wt, b).Some?
    ensures !DecodeList(S, et, b, depth).Panic?
    decreases depth, 3
  {
    hide DecodeElems, SkipElems, Get32, Room, MinWireSize, Built;
    if b[0] == WireType(et) {
      SkippableElems(S, et, b, 5, Get32(b[1..]), [], depth - 1);
    }
  }

  lemma {:induction false} SkippableElems(S: Schema, et: Type, b: seq<Byte>, i: nat, l: nat, acc: seq<Value>,
                                          depth: nat)
    requires i <= |b| && Closed(S) && NamesIn(S, et) && SkipElems(WireType(et), b[i..], l).Some?
    ensures !DecodeElems(S, et, b, i, l, acc, depth).Panic?
    decreases depth, 6, l
  {
    hide DecodeElems, DecodeElem, SkipValue, Built;
    UnfoldElems(S, et, b, i, l, acc, depth);
    if l > 0 {
      SkippableElem(S, et, b[i..], depth);
      var o := DecodeElem(S, et, b[i..], depth);
      if o.Ok? {
        DropDrop(b, i, o.n);
        SkippableElems(S, et, b, i + o.n, l - 1, acc + [o.val], depth);
      }
    }
  }

  lemma {:induction false} SkippableMap(S: Schema, kt: Type, vt: Type, b: seq<Byte>, depth: nat)
    requires Closed(S) && NamesIn(S, kt) && NamesIn(S, vt) && depth > 0 && SkipValue(WT_MAP, b).Some?
    ensures !DecodeMap(S, kt, vt, b, depth).Panic?
    decreases depth, 3
  {
    hide DecodeEntries, SkipPairs, Get32, Room, MinWireSize, Built;
    if b[0] == WireType(kt) && b[1] == WireType(vt) {
      SkippableEntries(S, kt, vt, b, 6, Get32(b[2..]), [], depth - 1);
    }
  }

  lemma {:induction false} SkippableEntry(S: Schema, kt: Type, vt: Type, b: seq<Byte>, depth: nat)
    requires Closed(S) && NamesIn(S, kt) && NamesIn(S, vt) && SkipPair(WireType(kt), WireType(vt), b).Some?
    ensures var o := DecodeEntry(S, kt, vt, b, depth);
      && !o.Panic?
      && (o.Ok? ==> SkipPair(WireType(kt), WireType(vt), b) == Some(o.n))
    decreases depth, 6, 0
  {
    hide DecodeElem, SkipValue, Built;
    SkippableElem(S, kt, b, depth);
    var k := DecodeElem(S, kt, b, depth);
    if k.Ok? {
      SkippableElem(S, vt, b[k.n..], depth);
    }
  }

  lemma {:induction false} SkippableEntries(S: Schema, kt: Type, vt: Type, b: seq<Byte>, i: nat, l: nat,
                                            es: seq<Entry>, depth: nat)
    requires i <= |b| && Closed(S) && NamesIn(S, kt) && NamesIn(S, vt)
    requires SkipPairs(WireType(kt), WireType(vt), b[i..], l).Some?
    ensures !DecodeEntries(S, kt, vt, b, i, l, es, depth).Panic?
    decreases depth, 7, l
  {
    hide DecodeEntries, DecodeEntry, SkipPair, MapPut, Built;
    UnfoldEntries(S, kt, vt, b, i, l, es, depth);
    if l > 0 {
      SkippableEntry(S, kt, vt, b[i..], depth);
      var o := DecodeEntry(S, kt, vt, b[i..], depth);
      if o.Ok? {
        DropDrop(b, i, o.n);
        SkippableEntries(S, kt, vt, b, i + o.n, l - 1, MapPut(kt, es, o.val), depth);
      }
    }
  }

  lemma {:induction false} SkippableField(S: Schema, sd: StructDesc, b: seq<Byte>, p: Partial, depth: nat)
    requires |p.fields| == |sd.fields| && Closed(S) && DescNamesIn(S, sd)
    requires |b| >= 3 && SkipValue(b[0], b[3..]).Some?
    ensures var o := DecodeField(S, sd, b, p, depth);
      && !o.Panic?
      && (o.Ok? ==> o.n == 3 + SkipValue(b[0], b[3..]).value)
    decreases depth, 7
  {
    hide DecodeField, DecodeElem, DecodeString, ReadField, SkipValue, KnownField, Get16, Built;
    UnfoldField(S, sd, b, p, depth);
    if KnownField(sd, b[0], Get16(b[1..])).Some? {
      var f := sd.fields[KnownField(sd, b[0], Get16(b[1..])).value];
      StringDoesNotPanic(b[3..]);
      SkippableElem(S, f.typ, b[3..], depth);
    }
    FieldMeets(S, sd, b, p, depth);
    if ReadField(S, sd, b, p).Some? {
      ReadFieldSkips(S, sd, b, p);
    }
  }

  lemma {:induction false} SkippableFields(S: Schema, sd: StructDesc, b: seq<Byte>, i: nat, p: Partial, depth: nat)
    requires |p.fields| == |sd.fields| && i <= |b| && Closed(S) && DescNamesIn(S, sd) && SkipFields(b[i..]).Some?
    ensures !DecodeFields(S, sd, b, i, p, depth).Panic?
    decreases depth, 8, |b| - i
  {
    hide DecodeFields, DecodeField, SkipValue, DescNamesIn, Built;
    UnfoldFields(S, sd, b, i, p, depth);
    if b[i] != STOP {
      SkippableField(S, sd, b[i..], p, depth);
      var o := DecodeField(S, sd, b[i..], p, depth);
      if o.Ok? {
        DropDrop(b, i, o.n);
        SkippableFields(S, sd, b, i + o.n, o.val, depth);
      }
    }
  }

  lemma {:induction false} SkippableStruct(S: Schema, sd: StructDesc, b: seq<Byte>, target: Value, depth: nat)
    requires target.Struct? && |target.fields| == |sd.fields| && Closed(S) && DescNamesIn(S, sd) && SkipFields(b).Some?
    ensures !DecodeStruct(S, sd, b, target, depth).Panic?
    decreases depth, 2
  {
    hide DecodeFields, SkipFields, Complete, Built;
    if depth > 0 {
      assert b[0..] == b;
      SkippableFields(S, sd, b, 0, Partial(target.fields, [], {}), depth - 1);
    }
  }

  /**
    Whatever the schema, the target and the budget: a message that the protocol's own skipping
    accepts is never one that panics, and no other message is accepted.
   */
  lemma WholeMessage(S: Schema, sd: StructDesc, b: seq<Byte>, target: Value, depth: nat)
    requires target.Struct? && |target.fields| == |sd.fields| && Closed(S) && DescNamesIn(S, sd)
    ensures var o := DecodeStruct(S, sd, b, target, depth);
      && (SkipFields(b).Some? ==> !o.Panic?)
      && (o.Ok? ==> SkipFields(b) == Some(o.n))
  {
    hide DecodeStruct, SkipFields, ReadFields, Built;
    if SkipFields(b).Some? {
      SkippableStruct(S, sd, b, target, depth);
    }
    StructMeets(S, sd, b, target, depth);
    if ReadStruct(S, sd, b, target).Some? {
      ReadFieldsSkips(S, sd, b, Partial(target.fields, [], {}));
    }
  }

  // ----- What is cut off between fields panics.

  /** `b` ends behind one of its fields, or within the header of the next one. */
  predicate CutFields(b: seq<Byte>)
    decreases |b|
  {
    if |b| == 0 then true
    else if b[0] == STOP then false
    else if |b| < 3 then true
    else
      var n := SkipValue(b[0], b[3..]);
      n.Some? && CutFields(b[3 + n.value..])
  }

  /** An accepted field stays accepted when the message ends behind it. */
  lemma FieldStaysWhole(S: Schema, sd: StructDesc, b: seq<Byte>, c: seq<Byte>, p: Partial, depth: nat)
    requires |p.fields| == |sd.fields| && c <= b && |c| >= 3 && SkipValue(c[0], c[3..]).Some?
    requires DecodeField(S, sd, b, p, depth).Ok?
    ensures DecodeField(S, sd, c, p, depth) == DecodeField(S, sd, b, p, depth)
    ensures DecodeField(S, sd, b, p, depth).n == 3 + SkipValue(c[0], c[3..]).value
  {
    hide DecodeField, ReadField, SkipValue, Built;
    FieldMeets(S, sd, b, p, depth);
    FieldMeets(S, sd, c, p, depth);
    ReadFieldSkips(S, sd, b, p);
    SkipValueLocal(c[0], c[3..], b[3..], |c| - 3);
    ReadFieldLocal(S, sd, b, c, |c|, p);
  }

  lemma {:induction false} CutFieldsPanic(S: Schema, sd: StructDesc, b: seq<Byte>, c: seq<Byte>, i: nat, p: Partial,
                                          depth: nat)
    requires |p.fields| == |sd.fields| && c <= b && i <= |c| && CutFields(c[i..])
    requires DecodeFields(S, sd, b, i, p, depth).Ok?
    ensures DecodeFields(S, sd, c, i, p, depth).Panic?
    decreases |c| - i
  {
    hide DecodeFields, DecodeField, SkipValue, KnownField, Get16, Built;
    UnfoldFields(S, sd, b, i, p, depth);
    UnfoldFields(S, sd, c, i, p, depth);
    if i < |c| {
      if |c| - i < 3 {
        UnfoldField(S, sd, c[i..], p, depth);
      } else {
        PrefixDrop(c, b, i);
        FieldStaysWhole(S, sd, b[i..], c[i..], p, depth);
        var o := DecodeField(S, sd, b[i..], p, depth);
        DropDrop(c, i, o.n);
        CutFieldsPanic(S, sd, b, c, i + o.n, o.val, depth);
      }
    }
  }

  /** An accepted message that is cut off between its fields panics. */
  lemma CutMessagePanics(S: Schema, sd: StructDesc, b: seq<Byte>, target: Value, depth: nat, m: nat)
    requires target.Struct? && |target.fields| == |sd.fields|
    requires DecodeStruct(S, sd, b, target, depth).Ok? && m <= |b| && CutFields(b[..m])
    ensures DecodeStruct(S, sd, b[..m], target, depth) == Panic
  {
    hide DecodeFields, CutFields, Complete, Built;
    assert b[..m][0..] == b[..m];
    CutFieldsPanic(S, sd, b, b[..m], 0, Partial(target.fields, [], {}), depth - 1);
  }

  lemma {:induction false} UnknownFieldsPanic(S: Schema, sd: StructDesc, b: seq<Byte>, i: nat, p: Partial, depth: nat)
    requires sd.fields == [] && p.fields == [] && i <= |b|
    ensures DecodeFields(S, sd, b, i, p, depth).Panic? <==> CutFields(b[i..])
    decreases |b| - i
  {
    hide DecodeFields, DecodeField, SkipValue, KnownField, Built;
    UnfoldFields(S, sd, b, i, p, depth);
    if i < |b| && b[i] != STOP {
      UnfoldField(S, sd, b[i..], p, depth);
      var o := DecodeField(S, sd, b[i..], p, depth);
      if o.Ok? {
        DropDrop(b, i, o.n);
        UnknownFieldsPanic(S, sd, b, i + o.n, o.val, depth);
      }
    }
  }

  /** For a struct without fields of its own, these are all the messages that panic. */
  lemma CutExactly(S: Schema, sd: StructDesc, b: seq<Byte>, unknown: seq<Byte>, depth: nat)
    requires sd.fields == [] && depth > 0
    ensures DecodeStruct(S, sd, b, Struct([], unknown), depth).Panic? <==> CutFields(b)
  {
    hide DecodeFields, CutFields, Complete, Built;
    assert b[0..] == b;
    UnknownFieldsPanic(S, sd, b, 0, Partial([], [], {}), depth - 1);
  }

  lemma {:induction false} LastByteIsStop(b: seq<Byte>)
    requires SkipFields(b).Some?
    ensures b[SkipFields(b).value - 1] == STOP && CutFields(b[..SkipFields(b).value - 1])
    decreases |b|
  {
    hide SkipValue;
    if b[0] != STOP {
      var n := SkipValue(b[0], b[3..]).value;
      var rest := b[3 + n..];
      var m := SkipFields(rest).value;
      LastByteIsStop(rest);
      var c := b[..3 + n + m - 1];
      assert c[3 + n..] == rest[..m - 1];
      SkipValueLocal(b[0], b[3..], c[3..], n);
    }
  }

  /** Every accepted message ends with a STOP byte, and without this last byte it panics. */
  lemma WithoutLastByte(S: Schema, sd: StructDesc, b: seq<Byte>, target: Value, depth: nat)
    requires target.Struct? && |target.fields| == |sd.fields| && Closed(S) && DescNamesIn(S, sd)
    requires DecodeStruct(S, sd, b, target, depth).Ok?
    ensures var n := DecodeStruct(S, sd, b, target, depth).n;
      && 0 < n <= |b| && b[n - 1] == STOP
      && DecodeStruct(S, sd, b[..n - 1], target, depth) == Panic
  {
    hide DecodeStruct, SkipFields, CutFields, Built;
    WholeMessage(S, sd, b, target, depth);
    LastByteIsStop(b);
    CutMessagePanics(S, sd, b, target, depth, SkipFields(b).value - 1);
  }

  /** The least input that panics, for every struct. */
  lemma EmptyMessagePanics(S: Schema, sd: StructDesc, target: Value, depth: nat)
    requires target.Struct? && |target.fields| == |sd.fields| && depth > 0
    ensures DecodeStruct(S, sd, [], target, depth) == Panic
  {
  }
}
