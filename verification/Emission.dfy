/**
  What is written is well-formed Thrift for any reader, also for one that does not know the
  schema and for values that this decoder would refuse: every encoding can be skipped. The
  fields of a struct stand in ascending order of their IDs.
 */
module Emission {
  import opened Common
  import opened BigEndian
  import opened Schema
  import opened Skip
  import opened Wire

  /** Lengths are written and read back. */
  lemma StringSkips(s: seq<Byte>, rest: seq<Byte>)
    requires |s| < TWO_31
    ensures SkipValue(WT_STRING, EncodeString(s) + rest) == Some(|EncodeString(s)|)
  {
    hide Put32, Get32;
    Assoc(Put32(|s|), s, rest);
    GetPut32(|s|, s + rest);
  }

  lemma FixedSkips(t: Type, bits: nat, rest: seq<Byte>)
    requires FixedSize(t) > 0
    ensures SkipValue(WireType(t), PutFixed(t, bits) + rest) == Some(FixedSize(t))
  {
    FixedSizeIsWireSize(t);
  }

  lemma EndSkips(rest: seq<Byte>)
    ensures SkipFields([STOP] + rest) == Some(1)
  {
  }

  /** A list header and `body` behind it. */
  lemma ListHeader(wt: Byte, et: Byte, n: nat, body: seq<Byte>, rest: seq<Byte>)
    requires (wt == WT_SET || wt == WT_LIST) && n < TWO_31
    ensures SkipValue(wt, [et] + Put32(n) + body + rest) == Plus(5, SkipElems(et, body + rest, n))
  {
    hide SkipElems, Put32, Get32;
    var b := [et] + Put32(n) + body + rest;
    assert b[1..] == Put32(n) + (body + rest);
    GetPut32(n, body + rest);
    assert b[5..] == body + rest;
  }

  /** A map header and `body` behind it. */
  lemma MapHeader(kt: Byte, vt: Byte, n: nat, body: seq<Byte>, rest: seq<Byte>)
    requires n < TWO_31
    ensures SkipValue(WT_MAP, [kt, vt] + Put32(n) + body + rest) == Plus(6, SkipPairs(kt, vt, body + rest, n))
  {
    hide SkipPairs, Put32, Get32;
    var b := [kt, vt] + Put32(n) + body + rest;
    assert b[2..] == Put32(n) + (body + rest);
    GetPut32(n, body + rest);
    assert b[6..] == body + rest;
  }

  /** What is written for nil. */
  lemma {:induction false} NilSkips(S: Schema, t: Type, rest: seq<Byte>)
    ensures SkipValue(WireType(t), EncodeValue(S, t, Nil) + rest) == Some(|EncodeValue(S, t, Nil)|)
    decreases t
  {
    hide PutFixed, EncodeString, SkipValue, SkipFields, Put32, Built;
    if FixedSize(t) > 0 {
      FixedSkips(t, 0, rest);
    } else {
      match t
      case TPtr(e) => NilSkips(S, e, rest);
      case TStruct(_) => EndSkips(rest); StructValue([STOP] + rest);
      case TMap(kt, vt) =>
        MapHeader(WireType(kt), WireType(vt), 0, [], rest);
        EmptySides([WireType(kt), WireType(vt)] + Put32(0));
      case TSet(e) => ListHeader(WT_SET, WireType(e), 0, [], rest); EmptySides([WireType(e)] + Put32(0));
      case TList(e) => ListHeader(WT_LIST, WireType(e), 0, [], rest); EmptySides([WireType(e)] + Put32(0));
      case TString => StringSkips([], rest);
      case TBinary => StringSkips([], rest);
    }
  }

  lemma StructValue(b: seq<Byte>)
    ensures SkipValue(WT_STRUCT, b) == SkipFields(b)
  {
  }

  /** Whatever value is written, a reader that knows only its wire type skips just that. */
  lemma {:induction false} ValueSkips(S: Schema, t: Type, v: Value, rest: seq<Byte>)
    requires Typed(S, t, v)
    ensures SkipValue(WireType(t), EncodeValue(S, t, v) + rest) == Some(|EncodeValue(S, t, v)|)
    decreases v, 3, t
  {
    hide PutFixed, EncodeString, EncodeElems, EncodeEntries, EncodeStruct, SkipValue, SkipFields, SkipElems;
    hide SkipPairs, Put32, Built;
    if v.Nil? {
      NilSkips(S, t, rest);
    } else if FixedSize(t) > 0 {
      FixedSkips(t, if v.Fixed? then v.bits else 0, rest);
    } else {
      match t
      case TPtr(e) => ValueSkips(S, e, v, rest);
      case TStruct(name) =>
        StructSkips(S, S[name], v, rest);
        StructValue(EncodeStruct(S, S[name], v) + rest);
      case TMap(kt, vt) =>
        MapHeader(WireType(kt), WireType(vt), |v.entries|, EncodeEntries(S, kt, vt, v, 0), rest);
        EntriesSkip(S, kt, vt, v, 0, rest);
      case TSet(e) =>
        ListHeader(WT_SET, WireType(e), |v.elems|, EncodeElems(S, e, v, 0), rest);
        ElemsSkip(S, e, v, 0, rest);
      case TList(e) =>
        ListHeader(WT_LIST, WireType(e), |v.elems|, EncodeElems(S, e, v, 0), rest);
        ElemsSkip(S, e, v, 0, rest);
      case TString => StringSkips(Content(v), rest);
      case TBinary => StringSkips(Content(v), rest);
    }
  }

  /** An item that can be skipped, and what follows it. */
  lemma SkipsOn(a: seq<Byte>, b: seq<Byte>, rest: seq<Byte>)
    ensures a + b + rest == a + (b + rest) && (a + (b + rest))[|a|..] == b + rest
  {
  }

  lemma ElemsStep(wt: Byte, h: seq<Byte>, t: seq<Byte>, rest: seq<Byte>, l: nat)
    requires l > 0 && SkipValue(wt, h + (t + rest)) == Some(|h|) && SkipElems(wt, t + rest, l - 1) == Some(|t|)
    ensures SkipElems(wt, h + t + rest, l) == Some(|h + t|)
  {
    hide SkipValue;
    SkipsOn(h, t, rest);
  }

  lemma PairsStep(kt: Byte, vt: Byte, h: seq<Byte>, t: seq<Byte>, rest: seq<Byte>, l: nat)
    requires l > 0 && SkipPair(kt, vt, h + (t + rest)) == Some(|h|) && SkipPairs(kt, vt, t + rest, l - 1) == Some(|t|)
    ensures SkipPairs(kt, vt, h + t + rest, l) == Some(|h + t|)
  {
    hide SkipPair;
    SkipsOn(h, t, rest);
  }

  lemma EntryIsTyped(S: Schema, kt: Type, vt: Type, v: Value, j: nat)
    requires v.Map? && Typed(S, TMap(kt, vt), v) && j < |v.entries|
    ensures Typed(S, kt, v.entries[j].key) && Typed(S, vt, v.entries[j].val)
  {
    hide DistinctKeys, Built;
  }

  lemma {:induction false} ElemsSkip(S: Schema, e: Type, v: Value, j: nat, rest: seq<Byte>)
    requires v.List? && TypedList(S, e, v) && j <= |v.elems|
    ensures SkipElems(WireType(e), EncodeElems(S, e, v, j) + rest, |v.elems| - j) == Some(|EncodeElems(S, e, v, j)|)
    decreases v, 1, |v.elems| - j
  {
    hide EncodeValue, SkipValue, Typed, Built;
    if j < |v.elems| {
      var h, t := EncodeValue(S, e, v.elems[j]), EncodeElems(S, e, v, j + 1);
      hide SkipElems;
      ValueSkips(S, e, v.elems[j], t + rest);
      ElemsSkip(S, e, v, j + 1, rest);
      ElemsStep(WireType(e), h, t, rest, |v.elems| - j);
    }
  }

  lemma {:induction false} EntrySkips(S: Schema, kt: Type, vt: Type, e: Entry, rest: seq<Byte>)
    requires Typed(S, kt, e.key) && Typed(S, vt, e.val)
    ensures SkipPair(WireType(kt), WireType(vt), EncodeEntry(S, kt, vt, e) + rest) == Some(|EncodeEntry(S, kt, vt, e)|)
    decreases e, 0
  {
    hide EncodePart, SkipValue, Typed, Built;
    var branch := Plain(kt) && Plain(vt);
    var k, v := EncodePart(S, kt, e.key, branch), EncodePart(S, vt, e.val, branch);
    PartSkips(S, kt, e.key, branch, v + rest);
    PartSkips(S, vt, e.val, branch, rest);
    SkipsOn(k, v, rest);
  }

  lemma {:induction false} PartSkips(S: Schema, t: Type, v: Value, branch: bool, rest: seq<Byte>)
    requires Typed(S, t, v)
    ensures SkipValue(WireType(t), EncodePart(S, t, v, branch) + rest) == Some(|EncodePart(S, t, v, branch)|)
    decreases v, 4
  {
    if !(branch && t.TBool?) {
      hide EncodeValue, SkipValue, Typed, Built;
      ValueSkips(S, t, v, rest);
    }
  }

  lemma {:induction false} EntriesSkip(S: Schema, kt: Type, vt: Type, v: Value, j: nat, rest: seq<Byte>)
    requires v.Map? && Typed(S, TMap(kt, vt), v) && j <= |v.entries|
    ensures SkipPairs(WireType(kt), WireType(vt), EncodeEntries(S, kt, vt, v, j) + rest, |v.entries| - j)
      == Some(|EncodeEntries(S, kt, vt, v, j)|)
    decreases v, 1, |v.entries| - j
  {
    hide EncodeEntry, SkipPair, WireType, Typed, Built;
    if j < |v.entries| {
      var h, t := EncodeEntry(S, kt, vt, v.entries[j]), EncodeEntries(S, kt, vt, v, j + 1);
      hide SkipPairs;
      EntryIsTyped(S, kt, vt, v, j);
      EntrySkips(S, kt, vt, v.entries[j], t + rest);
      EntriesSkip(S, kt, vt, v, j + 1, rest);
      PairsStep(WireType(kt), WireType(vt), h, t, rest, |v.entries| - j);
    }
  }

  // ----- The fields of a struct, as any reader sees them

  /** The field IDs in front of the next STOP, found by skipping the values. */
  function Headers(b: seq<Byte>): seq<nat> {
    if |b| < 3 || b[0] == STOP then []
    else
      match SkipValue(b[0], b[3..])
      case None => []
      case Some(n) => [Get16(b[1..])] + Headers(b[3 + n..])
  }

  /** One field, and then the others. */
  lemma HeaderStep(wt: Byte, id: nat, c: seq<Byte>, rest: seq<Byte>)
    requires wt != STOP && id < 0x1_0000 && SkipValue(wt, c + rest) == Some(|c|)
    ensures var b := [wt] + Put16(id) + c + rest;
      && Headers(b) == [id] + Headers(rest)
      && SkipFields(b) == Plus(3 + |c|, SkipFields(rest))
  {
    hide SkipValue, Put16, Get16, Headers, SkipFields;
    var b := [wt] + Put16(id) + c + rest;
    HeaderText(wt, id, c, rest);
    GetPut16(id, c + rest);
    OneHeader(b, |c|);
  }

  lemma HeaderText(wt: Byte, id: nat, c: seq<Byte>, rest: seq<Byte>)
    ensures var b := [wt] + Put16(id) + c + rest;
      && |b| >= 3 && b[0] == wt && b[1..] == Put16(id) + (c + rest)
      && b[3..] == c + rest && b[3 + |c|..] == rest
  {
    hide Put16;
    var b := [wt] + Put16(id) + c + rest;
    assert b == [wt] + (Put16(id) + (c + rest));
    assert b == ([wt] + Put16(id)) + (c + rest);
    DropPrefix([wt] + Put16(id), c + rest);
    DropPrefix([wt] + Put16(id) + c, rest);
  }

  lemma OneHeader(b: seq<Byte>, n: nat)
    requires |b| >= 3 && b[0] != STOP && SkipValue(b[0], b[3..]) == Some(n)
    ensures Headers(b) == [Get16(b[1..])] + Headers(b[3 + n..])
    ensures SkipFields(b) == Plus(3 + n, SkipFields(b[3 + n..]))
  {
    hide Headers, SkipFields;
    OneID(b, n);
    OneField(b, n);
  }

  lemma OneID(b: seq<Byte>, n: nat)
    requires |b| >= 3 && b[0] != STOP && SkipValue(b[0], b[3..]) == Some(n)
    ensures Headers(b) == [Get16(b[1..])] + Headers(b[3 + n..])
  {
    hide SkipValue, Get16, Plus;
  }

  lemma OneField(b: seq<Byte>, n: nat)
    requires |b| >= 3 && b[0] != STOP && SkipValue(b[0], b[3..]) == Some(n)
    ensures SkipFields(b) == Plus(3 + n, SkipFields(b[3 + n..]))
  {
    hide SkipValue, Plus;
  }

  /** The IDs of the fields that are not left out, from field `i` on. */
  function EmittedIDs(sd: StructDesc, v: Value, i: nat): seq<nat>
    requires Shaped(sd, v) && i <= |sd.fields|
    decreases |sd.fields| - i
  {
    if i == |sd.fields| then []
    else (if Skipped(sd, i, v.fields[i]) then [] else [sd.fields[i].id]) + EmittedIDs(sd, v, i + 1)
  }

  lemma FieldIDIsSmall(sd: StructDesc, i: nat)
    requires i < |sd.fields|
    ensures sd.fields[i].id < 0x1_0000 && WireType(sd.fields[i].typ) != STOP
  {
    WireTypeIsNotStop(sd.fields[i].typ);
  }

  lemma {:induction false} FieldsSkip(S: Schema, sd: StructDesc, v: Value, i: nat, rest: seq<Byte>)
    requires TypedStruct(S, sd, v) && i <= |sd.fields|
    ensures var b := EncodeFields(S, sd, v, i) + rest;
      && Headers(b) == EmittedIDs(sd, v, i) + Headers(rest)
      && SkipFields(b) == Plus(|EncodeFields(S, sd, v, i)|, SkipFields(rest))
    decreases v, 1, |sd.fields| - i
  {
    hide Headers, SkipFields, SkipValue, EncodeValue, Skipped, Put16, ValidUnknown, Typed, Built;
    if i == |sd.fields| {
      assert [] + rest == rest && [] + Headers(rest) == Headers(rest);
    } else {
      FieldsSkip(S, sd, v, i + 1, rest);
      var t := EncodeFields(S, sd, v, i + 1);
      var ids := EmittedIDs(sd, v, i + 1);
      if Skipped(sd, i, v.fields[i]) {
        assert [] + t == t && [] + ids == ids;
      } else {
        var f := sd.fields[i];
        var c := EncodeValue(S, f.typ, v.fields[i]);
        FieldIDIsSmall(sd, i);
        ValueSkips(S, f.typ, v.fields[i], t + rest);
        HeaderStep(WireType(f.typ), f.id, c, t + rest);
        assert EncodeFields(S, sd, v, i) + rest == [WireType(f.typ)] + Put16(f.id) + c + (t + rest);
        Assoc([f.id], ids, Headers(rest));
      }
    }
  }

  lemma FirstUnknown(u: seq<Byte>, n: nat, rest: seq<Byte>)
    requires |u| >= 3 && SkipValue(u[0], u[3..]) == Some(n)
    ensures var b := u + rest;
      b[0] == u[0] && SkipValue(b[0], b[3..]) == Some(n) && b[3 + n..] == u[3 + n..] + rest
  {
    hide SkipValue;
    var b := u + rest;
    assert b[3..] == u[3..] + rest;
    assert Agree(u[3..], b[3..], n);
    SkipValueLocal(u[0], u[3..], b[3..], n);
  }

  lemma UnknownParts(sd: StructDesc, u: seq<Byte>)
    requires u != [] && ValidUnknown(sd, u)
    ensures |u| >= 3 && u[0] != STOP && SkipValue(u[0], u[3..]).Some?
    ensures ValidUnknown(sd, u[3 + SkipValue(u[0], u[3..]).value..])
  {
    hide SkipValue, KnownField, Get16, Built;
  }

  lemma {:induction false} UnknownSkips(sd: StructDesc, u: seq<Byte>, rest: seq<Byte>)
    requires ValidUnknown(sd, u)
    ensures SkipFields(u + ([STOP] + rest)) == Some(|u| + 1)
    decreases |u|
  {
    hide SkipValue, SkipFields, ValidUnknown, Built;
    if u == [] {
      EndSkips(rest);
      EmptySides([STOP] + rest);
    } else {
      UnknownParts(sd, u);
      var n := SkipValue(u[0], u[3..]).value;
      UnknownSkips(sd, u[3 + n..], rest);
      FirstUnknown(u, n, [STOP] + rest);
      OneField(u + ([STOP] + rest), n);
    }
  }

  lemma {:induction false} StructSkips(S: Schema, sd: StructDesc, v: Value, rest: seq<Byte>)
    requires TypedStruct(S, sd, v)
    ensures SkipFields(EncodeStruct(S, sd, v) + rest) == Some(|EncodeStruct(S, sd, v)|)
    decreases v, 1, |sd.fields| + 1
  {
    hide EncodeFields, SkipFields, ValidUnknown, Typed, Built;
    FieldsSkip(S, sd, v, 0, v.unknown + ([STOP] + rest));
    UnknownSkips(sd, v.unknown, rest);
    EncodedStruct(S, sd, v, rest);
  }

  lemma EncodedStruct(S: Schema, sd: StructDesc, v: Value, rest: seq<Byte>)
    requires Shaped(sd, v) && (sd.hasUnknown || v.unknown == [])
    ensures EncodeStruct(S, sd, v) + rest == EncodeFields(S, sd, v, 0) + (v.unknown + ([STOP] + rest))
    ensures |EncodeStruct(S, sd, v)| == |EncodeFields(S, sd, v, 0)| + |v.unknown| + 1
  {
    hide EncodeFields, Built;
  }

  /** IDs of known fields from position `i` on, in strictly ascending order. */
  ghost predicate Ascend(sd: StructDesc, ids: seq<nat>, i: nat) {
    && (forall a, b :: 0 <= a < b < |ids| ==> ids[a] < ids[b])
    && (forall a :: 0 <= a < |ids| ==> GetField(sd, ids[a]).Some? && GetField(sd, ids[a]).value >= i)
  }

  lemma AscendOn(sd: StructDesc, ids: seq<nat>, i: nat)
    requires i < |sd.fields| && Ascend(sd, ids, i + 1)
    ensures Ascend(sd, ids, i) && Ascend(sd, [sd.fields[i].id] + ids, i)
  {
    forall a | 0 <= a < |ids| ensures sd.fields[i].id < ids[a] {
      assert sd.fields[GetField(sd, ids[a]).value].id == ids[a];
    }
    assert sd.fieldIdx[sd.fields[i].id] == i;
  }

  lemma {:induction false} IDsAscend(sd: StructDesc, v: Value, i: nat)
    requires Shaped(sd, v) && i <= |sd.fields|
    ensures Ascend(sd, EmittedIDs(sd, v, i), i)
    decreases |sd.fields| - i
  {
    hide Skipped, Ascend, Built;
    if i == |sd.fields| {
      NoIDs(sd, i);
    } else {
      IDsAscend(sd, v, i + 1);
      AscendOn(sd, EmittedIDs(sd, v, i + 1), i);
      EmptySides(EmittedIDs(sd, v, i + 1));
    }
  }

  lemma NoIDs(sd: StructDesc, i: nat)
    ensures Ascend(sd, [], i)
  {
  }

  /**
    The headers of an encoded struct: first the fields that the struct knows and that are not
    left out, in strictly ascending order, then those of its unknown fields.
   */
  lemma FieldsAscend(S: Schema, sd: StructDesc, v: Value, rest: seq<Byte>)
    requires TypedStruct(S, sd, v)
    ensures var ids := EmittedIDs(sd, v, 0);
      && Headers(EncodeStruct(S, sd, v) + rest) == ids + Headers(v.unknown + ([STOP] + rest))
      && Ascend(sd, ids, 0)
  {
    hide EncodeFields, EncodeStruct, Headers, EmittedIDs, ValidUnknown, Typed, Built;
    FieldsSkip(S, sd, v, 0, v.unknown + ([STOP] + rest));
    EncodedStruct(S, sd, v, rest);
    IDsAscend(sd, v, 0);
  }
}
