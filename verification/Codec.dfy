/**
  The laws of the codec: what Append writes, Decode reads back, whatever follows in the
  buffer, exactly within its depth budget.
 */
module Codec {
  import opened Common
  import opened Schema
  import opened Reference
  import opened SelfDelimiting
  import opened Wire
  import opened ReadingBack
  import opened Decoding
  import opened DepthBudget

  /** maxDepthLimit, the budget of the exported Decode. */
  const MAX_DEPTH: nat := 1023

  /**
    Decoding what was encoded succeeds if and only if no struct with required fields was nil
    on the wire and the budget covers the value. It then consumes exactly the encoding and
    overwrites the target with the encoded fields.
   */
  lemma RoundTripInto(S: Schema, sd: StructDesc, v: Value, target: Value, s: seq<Byte>, depth: nat)
    requires TypedStruct(S, sd, v) && Shaped(sd, target)
    ensures var o := DecodeStruct(S, sd, EncodeStruct(S, sd, v) + s, target, depth);
      && (o.Ok? <==> RestorableFields(S, sd, v, 0) && StructCost(S, sd, v) <= depth)
      && (o.Ok? ==> o == Ok(NormStruct(S, sd, v, target), |EncodeStruct(S, sd, v)|))
      && (RestorableFields(S, sd, v, 0) && StructCost(S, sd, v) > depth ==> o.Err? && o.kind == DepthLimit)
  {
    hide DecodeStruct, ReadStruct, NormStruct, RestorableFields, StructCost, EncodeStruct, Built;
    StructReadsBack(S, sd, v, target, s);
    StructMeets(S, sd, EncodeStruct(S, sd, v) + s, target, depth);
  }

  // ----- Values that come back unchanged

  /**
    Nothing that is on the wire is nil, every field that is left out holds the value that a
    fresh struct has there, and every bool that is written through a branch is 0 or 1.
   */
  predicate Canonical(S: Schema, t: Type, v: Value)
    decreases v, 2, t
  {
    match t
    case TPtr(e) => Canonical(S, e, v)
    case TBinary => v.Bytes?
    case TStruct(name) => name in S && Shaped(S[name], v) && CanonicalFields(S, S[name], v, 0)
    case TMap(kt, vt) => v.Map? && CanonicalEntries(S, kt, vt, v, 0)
    case TSet(e) => v.List? && CanonicalElems(S, e, v, 0)
    case TList(e) => v.List? && CanonicalElems(S, e, v, 0)
    case _ => true
  }

  predicate CanonicalElems(S: Schema, e: Type, v: Value, j: nat)
    requires v.List? && j <= |v.elems|
    decreases v, 1, |v.elems| - j
  {
    j == |v.elems| || (Canonical(S, e, v.elems[j]) && CanonicalElems(S, e, v, j + 1))
  }

  predicate CanonicalEntry(S: Schema, kt: Type, vt: Type, e: Entry)
    decreases e, 0
  {
    var branch := Plain(kt) && Plain(vt);
    && GoBool(kt, e.key, branch) && Canonical(S, kt, e.key)
    && GoBool(vt, e.val, branch) && Canonical(S, vt, e.val)
  }

  predicate CanonicalEntries(S: Schema, kt: Type, vt: Type, v: Value, j: nat)
    requires v.Map? && j <= |v.entries|
    decreases v, 1, |v.entries| - j
  {
    j == |v.entries| || (CanonicalEntry(S, kt, vt, v.entries[j]) && CanonicalEntries(S, kt, vt, v, j + 1))
  }

  predicate CanonicalField(S: Schema, sd: StructDesc, k: nat, v: Value)
    requires k < |sd.fields|
    decreases v, 3
  {
    if Skipped(sd, k, v) then v == sd.init[k] else Canonical(S, sd.fields[k].typ, v)
  }

  predicate CanonicalFields(S: Schema, sd: StructDesc, v: Value, i: nat)
    requires Shaped(sd, v) && i <= |sd.fields|
    decreases v, 1, |sd.fields| - i
  {
    i == |sd.fields| || (CanonicalField(S, sd, i, v.fields[i]) && CanonicalFields(S, sd, v, i + 1))
  }

  /** Canonical values are exactly the fixed points of a round trip. */
  lemma {:induction false} NormFixesCanonical(S: Schema, t: Type, v: Value)
    requires Typed(S, t, v) && Readable(t, v)
    ensures Norm(S, t, v) == v <==> Canonical(S, t, v)
    decreases v, 2, t
  {
    hide Built;
    match t
    case TPtr(e) => NormFixesCanonical(S, e, v);
    case TStruct(name) => if Shaped(S[name], v) { StructFixed(S, S[name], v); }
    case TMap(kt, vt) => if v.Map? { MapFixed(S, kt, vt, v); }
    case TSet(e) => if v.List? { ElemsFixed(S, e, v, 0); assert v.elems[0..] == v.elems; }
    case TList(e) => if v.List? { ElemsFixed(S, e, v, 0); assert v.elems[0..] == v.elems; }
    case _ =>
  }

  lemma {:induction false} ElemsFixed(S: Schema, e: Type, v: Value, j: nat)
    requires v.List? && TypedList(S, e, v) && ElemType(e) && j <= |v.elems|
    ensures NormElems(S, e, v, j) == v.elems[j..] <==> CanonicalElems(S, e, v, j)
    decreases v, 1, |v.elems| - j
  {
    hide Norm, Canonical, Typed, Built;
    if j < |v.elems| {
      ElemIsReadable(e, v.elems[j]);
      NormFixesCanonical(S, e, v.elems[j]);
      ElemsFixed(S, e, v, j + 1);
      SameCons(Norm(S, e, v.elems[j]), NormElems(S, e, v, j + 1), v.elems, j);
    }
  }

  lemma SameCons<A>(h: A, r: seq<A>, a: seq<A>, j: nat)
    requires j < |a|
    ensures [h] + r == a[j..] <==> h == a[j] && r == a[j + 1..]
  {
    hide Built;
    assert a[j..] == [a[j]] + a[j + 1..];
    assert ([h] + r)[1..] == r && a[j..][1..] == a[j + 1..];
  }

  lemma {:induction false} MapFixed(S: Schema, kt: Type, vt: Type, v: Value)
    requires v.Map? && Typed(S, TMap(kt, vt), v) && ElemType(kt) && ElemType(vt)
    ensures Norm(S, TMap(kt, vt), v) == v <==> CanonicalEntries(S, kt, vt, v, 0)
    decreases v, 1, |v.entries| + 1
  {
    hide NormEntries, CanonicalEntries, PutAll, KeyEq, Built;
    var n := NormEntries(S, kt, vt, v, 0);
    EntriesFixed(S, kt, vt, v, 0);
    assert v.entries[0..] == v.entries;
    NormCount(S, kt, vt, v, 0);
    PutAllKeepsCount(kt, [], n);
    assert [] + n == n;
    if n == v.entries {
      PutAllNew(kt, n);
    }
  }

  lemma {:induction false} NormCount(S: Schema, kt: Type, vt: Type, v: Value, j: nat)
    requires v.Map? && j <= |v.entries|
    ensures |NormEntries(S, kt, vt, v, j)| == |v.entries| - j
    decreases |v.entries| - j
  {
    hide NormEntry, Built;
    if j < |v.entries| {
      NormCount(S, kt, vt, v, j + 1);
    }
  }

  lemma {:induction false} EntriesFixed(S: Schema, kt: Type, vt: Type, v: Value, j: nat)
    requires v.Map? && Typed(S, TMap(kt, vt), v) && ElemType(kt) && ElemType(vt) && j <= |v.entries|
    ensures NormEntries(S, kt, vt, v, j) == v.entries[j..] <==> CanonicalEntries(S, kt, vt, v, j)
    decreases v, 1, |v.entries| - j
  {
    hide NormPart, Canonical, Built;
    if j < |v.entries| {
      var e := v.entries[j];
      PartFixed(S, kt, e.key, Plain(kt) && Plain(vt));
      PartFixed(S, vt, e.val, Plain(kt) && Plain(vt));
      EntriesFixed(S, kt, vt, v, j + 1);
      SameCons(NormEntry(S, kt, vt, e), NormEntries(S, kt, vt, v, j + 1), v.entries, j);
    }
  }

  lemma {:induction false} PartFixed(S: Schema, t: Type, v: Value, branch: bool)
    requires Typed(S, t, v) && ElemType(t)
    ensures NormPart(S, t, v, branch) == v <==> GoBool(t, v, branch) && Canonical(S, t, v)
    decreases v, 3
  {
    hide Built;
    if !(branch && t.TBool?) {
      hide Norm, Canonical, Typed;
      ElemIsReadable(t, v);
      NormFixesCanonical(S, t, v);
    }
  }

  lemma {:induction false} StructFixed(S: Schema, sd: StructDesc, v: Value)
    requires TypedStruct(S, sd, v)
    ensures NormStruct(S, sd, v, Fresh(sd)) == v <==> CanonicalFields(S, sd, v, 0)
    decreases v, 1, |sd.fields| + 1
  {
    hide NormField, CanonicalField, Typed;
    FieldsFixed(S, sd, v, 0);
    var n := NormStruct(S, sd, v, Fresh(sd));
    if CanonicalFields(S, sd, v, 0) {
      assert n.fields == v.fields;
    }
  }

  lemma {:induction false} FieldsFixed(S: Schema, sd: StructDesc, v: Value, i: nat)
    requires TypedStruct(S, sd, v) && i <= |sd.fields|
    ensures (forall k :: i <= k < |sd.fields| ==> NormField(S, sd, k, v.fields[k], sd.init[k]) == v.fields[k])
      <==> CanonicalFields(S, sd, v, i)
    decreases v, 1, |sd.fields| - i
  {
    hide Norm, Canonical, Skipped, Typed, Built;
    if i < |sd.fields| {
      FieldsFixed(S, sd, v, i + 1);
      if !Skipped(sd, i, v.fields[i]) {
        FieldIsReadable(sd, i, v.fields[i]);
        NormFixesCanonical(S, sd.fields[i].typ, v.fields[i]);
      }
    }
  }

  lemma FieldIsReadable(sd: StructDesc, i: nat, v: Value)
    requires i < |sd.fields| && !Skipped(sd, i, v)
    ensures Readable(sd.fields[i].typ, v)
  {
    assert ResolvedField(sd.fields[i]);
  }

  lemma {:induction false} CanonicalIsRestorable(S: Schema, t: Type, v: Value)
    requires Canonical(S, t, v)
    ensures Restorable(S, t, v)
    decreases v, 2, t
  {
    hide Built;
    match t
    case TPtr(e) => CanonicalIsRestorable(S, e, v);
    case TStruct(name) => FieldsRestorable(S, S[name], v, 0);
    case TMap(kt, vt) => EntriesRestorable(S, kt, vt, v, 0);
    case TSet(e) => ElemsRestorable(S, e, v, 0);
    case TList(e) => ElemsRestorable(S, e, v, 0);
    case _ =>
  }

  lemma {:induction false} ElemsRestorable(S: Schema, e: Type, v: Value, j: nat)
    requires v.List? && j <= |v.elems| && CanonicalElems(S, e, v, j)
    ensures RestorableElems(S, e, v, j)
    decreases v, 1, |v.elems| - j
  {
    hide Built;
    if j < |v.elems| {
      CanonicalIsRestorable(S, e, v.elems[j]);
      ElemsRestorable(S, e, v, j + 1);
    }
  }

  lemma {:induction false} EntriesRestorable(S: Schema, kt: Type, vt: Type, v: Value, j: nat)
    requires v.Map? && j <= |v.entries| && CanonicalEntries(S, kt, vt, v, j)
    ensures RestorableEntries(S, kt, vt, v, j)
    decreases v, 1, |v.entries| - j
  {
    hide CanonicalEntry, RestorableEntry, Built;
    if j < |v.entries| {
      EntriesRestorable(S, kt, vt, v, j + 1);
      EntryRestorable(S, kt, vt, v.entries[j]);
      assert RestorableEntry(S, kt, vt, v.entries[j]);
    }
  }

  lemma {:induction false} EntryRestorable(S: Schema, kt: Type, vt: Type, e: Entry)
    requires CanonicalEntry(S, kt, vt, e)
    ensures RestorableEntry(S, kt, vt, e)
    decreases e, 0
  {
    hide Canonical, Restorable, Built;
    CanonicalIsRestorable(S, kt, e.key);
    CanonicalIsRestorable(S, vt, e.val);
  }

  lemma {:induction false} FieldsRestorable(S: Schema, sd: StructDesc, v: Value, i: nat)
    requires Shaped(sd, v) && i <= |sd.fields| && CanonicalFields(S, sd, v, i)
    ensures RestorableFields(S, sd, v, i)
    decreases v, 1, |sd.fields| - i
  {
    hide Built;
    if i < |sd.fields| {
      if !Skipped(sd, i, v.fields[i]) {
        CanonicalIsRestorable(S, sd.fields[i].typ, v.fields[i]);
      }
      FieldsRestorable(S, sd, v, i + 1);
    }
  }

  /**
    Into a target that holds the defaults, a value comes back identical if and only if it is
    canonical and the budget covers it. What follows in the buffer does not matter.
   */
  lemma RoundTrip(S: Schema, sd: StructDesc, v: Value, s: seq<Byte>, depth: nat)
    requires TypedStruct(S, sd, v)
    ensures DecodeStruct(S, sd, EncodeStruct(S, sd, v) + s, Fresh(sd), depth) == Ok(v, |EncodeStruct(S, sd, v)|)
      <==> CanonicalFields(S, sd, v, 0) && StructCost(S, sd, v) <= depth
  {
    hide DecodeStruct, NormStruct, EncodeStruct, StructCost, CanonicalFields, RestorableFields;
    RoundTripInto(S, sd, v, Fresh(sd), s, depth);
    StructFixed(S, sd, v);
    if CanonicalFields(S, sd, v, 0) {
      FieldsRestorable(S, sd, v, 0);
    }
  }

  /** Different canonical values have different encodings, and none is a prefix of another. */
  lemma EncodingPrefixFree(S: Schema, sd: StructDesc, v: Value, w: Value, s: seq<Byte>)
    requires TypedStruct(S, sd, v) && CanonicalFields(S, sd, v, 0)
    requires TypedStruct(S, sd, w) && CanonicalFields(S, sd, w, 0)
    requires EncodeStruct(S, sd, v) + s == EncodeStruct(S, sd, w)
    ensures v == w && s == []
  {
    hide DecodeStruct, EncodeStruct, StructCost, CanonicalFields, Built;
    var d := Max(StructCost(S, sd, v), StructCost(S, sd, w));
    RoundTrip(S, sd, v, s, d);
    RoundTrip(S, sd, w, [], d);
    assert EncodeStruct(S, sd, w) + [] == EncodeStruct(S, sd, w);
  }

  // ----- The decoder on arbitrary input

  /**
    The decoder accepts exactly what the reader accepts within the budget: pre-checks of
    lengths never reject what could be read, and the budget is exact.
   */
  lemma DecoderIsReader(S: Schema, sd: StructDesc, b: seq<Byte>, target: Value, depth: nat)
    requires Shaped(sd, target)
    ensures var o := DecodeStruct(S, sd, b, target, depth);
      var r := ReadStruct(S, sd, b, target);
      && (o.Ok? <==> r.Some? && r.value.cost <= depth)
      && (o.Ok? ==> o == Ok(r.value.val, r.value.n))
      && (r.Some? && r.value.cost > depth ==> o.Err? && o.kind == DepthLimit)
  {
    hide DecodeStruct, ReadStruct, Built;
    StructMeets(S, sd, b, target, depth);
  }

  /** A larger budget changes nothing but depth errors. */
  lemma BudgetMonotone(S: Schema, sd: StructDesc, b: seq<Byte>, target: Value, d: nat, e: nat)
    requires Shaped(sd, target) && d <= e && DecodeStruct(S, sd, b, target, d).Ok?
    ensures DecodeStruct(S, sd, b, target, e) == DecodeStruct(S, sd, b, target, d)
  {
    hide DecodeStruct, ReadStruct, Built;
    DecoderIsReader(S, sd, b, target, d);
    DecoderIsReader(S, sd, b, target, e);
  }

  /**
    An accepted message ends where the decoder says: whatever stands behind it, it decodes
    to the same value, and no proper prefix of it decodes.
   */
  lemma SelfDelimits(S: Schema, sd: StructDesc, b: seq<Byte>, target: Value, depth: nat, s: seq<Byte>, m: nat)
    requires Shaped(sd, target)
    requires DecodeStruct(S, sd, b, target, depth).Ok?
    requires m < DecodeStruct(S, sd, b, target, depth).n
    ensures var o := DecodeStruct(S, sd, b, target, depth);
      && o.n <= |b|
      && DecodeStruct(S, sd, b[..o.n] + s, target, depth) == o
      && !DecodeStruct(S, sd, b[..m], target, depth).Ok?
  {
    hide DecodeStruct, ReadStruct, Built;
    var n := DecodeStruct(S, sd, b, target, depth).n;
    DecoderIsReader(S, sd, b, target, depth);
    DecoderIsReader(S, sd, b[..n] + s, target, depth);
    DecoderIsReader(S, sd, b[..m], target, depth);
    ReadStructLocal(S, sd, b, b[..n] + s, n, target);
    var r := ReadStruct(S, sd, b[..m], target);
    if r.Some? {
      ReadStructLocal(S, sd, b[..m], b, r.value.n, target);
    }
  }

  // ----- The budget of a chain of nested structs

  /** struct Node { 1: optional Node next } */
  function NodeDesc(): (sd: StructDesc)
    ensures sd.fields == [Field(1, TStruct("Node"), Optional, false)]
    ensures sd.init == [Nil] && sd.required == [] && !sd.hasInit && !sd.hasUnknown
  {
    var f := Field(1, TStruct("Node"), Optional, false);
    assert [f][..0] == [] && [f][0] == f;
    assert SumFixed([f]) == 0 && VarFields([f]) == [0] && RequiredIDs([f]) == [];
    Desc([f], 1, [-1, 0], 0, [0], [], false, [Nil], false)
  }

  function NodeSchema(): Schema {
    map["Node" := NodeDesc()]
  }

  /** `k` structs inside one another. */
  function Chain(k: nat): Value
    requires k > 0
  {
    Struct([if k == 1 then Nil else Chain(k - 1)], [])
  }

  lemma {:induction false} ChainCost(k: nat)
    requires k > 0
    ensures TypedStruct(NodeSchema(), NodeDesc(), Chain(k))
    ensures CanonicalFields(NodeSchema(), NodeDesc(), Chain(k), 0)
    ensures StructCost(NodeSchema(), NodeDesc(), Chain(k)) == 2 * k - 1
  {
    hide NodeDesc, Built;
    var S, sd, v := NodeSchema(), NodeDesc(), Chain(k);
    if k > 1 {
      ChainCost(k - 1);
      assert Canonical(S, TStruct("Node"), Chain(k - 1));
      assert Cost(S, TStruct("Node"), Chain(k - 1)) == 2 * k - 2;
    }
    assert CanonicalField(S, sd, 0, v.fields[0]) && CanonicalFields(S, sd, v, 1);
    assert FieldCost(S, sd, 0, v.fields[0]) == 2 * k - 2 && FieldsCost(S, sd, v, 1) == 0;
  }

  /** Under the limit of 1023 exactly the chains of up to 512 structs decode. */
  lemma ChainOf512(k: nat, s: seq<Byte>)
    requires k > 0
    ensures var b := EncodeStruct(NodeSchema(), NodeDesc(), Chain(k)) + s;
      var o := DecodeStruct(NodeSchema(), NodeDesc(), b, Fresh(NodeDesc()), MAX_DEPTH);
      if k <= 512 then o.Ok? && o.val == Chain(k) else o.Err? && o.kind == DepthLimit
  {
    hide DecodeStruct, EncodeStruct, StructCost, CanonicalFields, TypedStruct, RestorableFields, Built;
    ChainCost(k);
    RoundTrip(NodeSchema(), NodeDesc(), Chain(k), s, MAX_DEPTH);
    RoundTripInto(NodeSchema(), NodeDesc(), Chain(k), Fresh(NodeDesc()), s, MAX_DEPTH);
    FieldsRestorable(NodeSchema(), NodeDesc(), Chain(k), 0);
  }
}
