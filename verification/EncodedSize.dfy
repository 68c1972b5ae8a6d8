/**
  EncodedSize (internal/reflect/ttype.go) computes the length of an encoding without
  producing it: on precomputed lengths of fixed-size fields, by multiplication for
  fixed-size elements, and by its own walk over the rest. It is always the number of bytes
  that Append writes.
 */
module EncodedSize {
  import opened Schema
  import opened Wire
  import opened ReadingBack
  import opened Codec

  // ----- Lengths of parts of an encoding

  /** Total length of the fields with the given positions. */
  function FieldsLen(S: Schema, sd: StructDesc, v: Value, idx: seq<nat>): nat
    requires Shaped(sd, v) && forall k :: 0 <= k < |idx| ==> idx[k] < |sd.fields|
    decreases |idx|
  {
    if idx == [] then 0
    else
      var i := idx[|idx| - 1];
      FieldsLen(S, sd, v, idx[..|idx| - 1]) + |EncodeField(S, sd, i, v.fields[i])|
  }

  /** Length of the first `n` fields. */
  function PrefixLen(S: Schema, sd: StructDesc, v: Value, n: nat): nat
    requires Shaped(sd, v) && n <= |sd.fields|
  {
    if n == 0 then 0 else PrefixLen(S, sd, v, n - 1) + |EncodeField(S, sd, n - 1, v.fields[n - 1])|
  }

  lemma {:induction false} PrefixAndRest(S: Schema, sd: StructDesc, v: Value, i: nat)
    requires Shaped(sd, v) && i <= |sd.fields|
    ensures PrefixLen(S, sd, v, i) + |EncodeFields(S, sd, v, i)| == PrefixLen(S, sd, v, |sd.fields|)
    decreases |sd.fields| - i
  {
    hide Built, EncodeField;
    if i < |sd.fields| {
      PrefixAndRest(S, sd, v, i + 1);
    }
  }

  /** The sum precomputed for the fixed-size fields, plus the others, is the whole length. */
  lemma {:induction false} FixedAndVariable(S: Schema, sd: StructDesc, v: Value, n: nat)
    requires TypedStruct(S, sd, v) && n <= |sd.fields|
    ensures PrefixLen(S, sd, v, n) == SumFixed(sd.fields[..n]) + FieldsLen(S, sd, v, VarFields(sd.fields[..n]))
    decreases n
  {
    hide Built, EncodeField, Typed, ValidUnknown, FixedFieldLen, SumFixed, VarFields, FieldsLen;
    if n == 0 {
      LastField([]);
      NothingYet(S, sd, v);
    } else {
      var ff := sd.fields[..n];
      assert ff[..n - 1] == sd.fields[..n - 1] && ff[n - 1] == sd.fields[n - 1];
      FixedAndVariable(S, sd, v, n - 1);
      LastField(ff);
      if FixedFieldLen(ff[n - 1]) > 0 {
        FixedFieldLength(S, sd, n - 1, v.fields[n - 1]);
      } else {
        var w := VarFields(ff[..n - 1]);
        assert (w + [n - 1])[..|w|] == w;
        OneMoreField(S, sd, v, w + [n - 1]);
      }
    }
  }

  lemma LastField(ff: seq<Field>)
    ensures ff == [] ==> SumFixed(ff) == 0 && VarFields(ff) == []
    ensures ff != [] ==>
      var n := |ff| - 1;
      if FixedFieldLen(ff[n]) > 0
      then SumFixed(ff) == SumFixed(ff[..n]) + FixedFieldLen(ff[n]) && VarFields(ff) == VarFields(ff[..n])
      else SumFixed(ff) == SumFixed(ff[..n]) && VarFields(ff) == VarFields(ff[..n]) + [n]
  {
    hide FixedFieldLen;
  }

  lemma FixedFieldLength(S: Schema, sd: StructDesc, i: nat, v: Value)
    requires i < |sd.fields| && FixedFieldLen(sd.fields[i]) > 0
    ensures |EncodeField(S, sd, i, v)| == FixedFieldLen(sd.fields[i])
  {
    hide Built;
  }

  // ----- The methods

  /** tType.EncodedSize of a struct behind a pointer. */
  method EncodedSize(S: Schema, sd: StructDesc, v: Value) returns (size: nat)
    requires v.Nil? || TypedStruct(S, sd, v)
    ensures size == |if v.Nil? then [STOP] else EncodeStruct(S, sd, v)|
    decreases v, 0
  {
    if v.Nil? {
      return 1;
    }
    hide Built, EncodeFields, Typed;
    size := FieldsSize(S, sd, v);
    if sd.hasUnknown {
      size := size + |v.unknown|;
    }
    size := size + 1;
  }

  /** The precomputed length, and the loop over the other fields. */
  method FieldsSize(S: Schema, sd: StructDesc, v: Value) returns (size: nat)
    requires TypedStruct(S, sd, v)
    ensures size == |EncodeFields(S, sd, v, 0)|
    decreases v, 0, 0
  {
    hide Built, EncodeField, EncodeFields, FieldsLen, ValidUnknown, Typed, SumFixed, VarFields, PrefixLen;
    Precomputed(sd);
    size := sd.fixedLen;
    assert sd.varLen[..0] == [];
    NothingYet(S, sd, v);
    for k := 0 to |sd.varLen|
      invariant size == sd.fixedLen + FieldsLen(S, sd, v, sd.varLen[..k])
    {
      var i := sd.varLen[k];
      var n := FieldSize(S, sd, i, v.fields[i]);
      size := size + n;
      assert sd.varLen[..k + 1][..k] == sd.varLen[..k];
      OneMoreField(S, sd, v, sd.varLen[..k + 1]);
    }
    assert sd.varLen[..|sd.varLen|] == sd.varLen && sd.fields[..|sd.fields|] == sd.fields;
    FixedAndVariable(S, sd, v, |sd.fields|);
    PrefixAndRest(S, sd, v, 0);
  }

  lemma NothingYet(S: Schema, sd: StructDesc, v: Value)
    requires Shaped(sd, v)
    ensures PrefixLen(S, sd, v, 0) == 0 && FieldsLen(S, sd, v, []) == 0
  {
  }

  lemma Precomputed(sd: StructDesc)
    ensures sd.varLen == VarFields(sd.fields) && sd.fixedLen == SumFixed(sd.fields)
  {
  }

  /** One round of the loop over the variable-length fields. */
  method FieldSize(S: Schema, sd: StructDesc, i: nat, p: Value) returns (n: nat)
    requires i < |sd.fields| && Typed(S, sd.fields[i].typ, p)
    ensures n == |EncodeField(S, sd, i, p)|
    decreases p, 3
  {
    hide Typed, EncodeValue;
    var f := sd.fields[i];
    if CanSkipIfNil(f) && p.Nil? {
      return 0;
    }
    if CanSkipIfDefault(sd, f) && Equal(f.typ, sd.init[i], p) {
      return 0;
    }
    FieldIsReadable(sd, i, p);
    n := ValueSize(S, f.typ, p);
    n := 3 + n;
  }

  /** Fixed size, string, or EncodedSizeFunc of the type. */
  method ValueSize(S: Schema, t: Type, v: Value) returns (n: nat)
    requires Typed(S, t, v) && Readable(t, v)
    ensures n == |EncodeValue(S, t, v)|
    decreases v, 2
  {
    hide Built, EncodeList, EncodeMap, EncodeStruct;
    if FixedSize(t) > 0 {
      return FixedSize(t);
    }
    match t {
      case TPtr(_) => n := 4 + |Content(v)|;
      case TString => n := 4 + |Content(v)|;
      case TBinary => n := 4 + |Content(v)|;
      case TStruct(name) => n := EncodedSize(S, S[name], v);
      case TMap(kt, vt) => n := EncodedMapSize(S, kt, vt, v);
      case TSet(e) => n := EncodedListSize(S, e, v);
      case TList(e) => n := EncodedListSize(S, e, v);
    }
  }

  method EncodedListSize(S: Schema, e: Type, v: Value) returns (size: nat)
    requires TypedList(S, e, v) && ElemType(e)
    ensures size == |EncodeList(S, e, v)|
    decreases v, 1
  {
    hide Built, EncodeElems, EncodeValue, Typed, ElemType;
    if v.Nil? {
      return 5;
    }
    if FixedSize(e) > 0 {
      FixedElemsLength(S, e, v, 0);
      return 5 + |v.elems| * FixedSize(e);
    }
    size := 5;
    for j := 0 to |v.elems|
      invariant size + |EncodeElems(S, e, v, j)| == |EncodeList(S, e, v)|
    {
      ElemsLength(S, e, v, j);
      var n := ElemSize(S, e, v.elems[j]);
      size := size + n;
    }
    NoMoreElems(S, e, v);
  }

  /** An element, key or value of a container. */
  method ElemSize(S: Schema, e: Type, v: Value) returns (n: nat)
    requires Typed(S, e, v) && ElemType(e)
    ensures n == |EncodeValue(S, e, v)|
    decreases v, 3
  {
    hide Built, EncodeValue, Typed;
    ElemIsReadable(e, v);
    n := ValueSize(S, e, v);
  }

  method EncodedMapSize(S: Schema, kt: Type, vt: Type, v: Value) returns (size: nat)
    requires Typed(S, TMap(kt, vt), v) && ElemType(kt) && ElemType(vt)
    ensures size == |EncodeMap(S, kt, vt, v)|
    decreases v, 1
  {
    hide Built, EncodeEntries, KeysLen, ValsLen, EncodeValue, ElemType;
    if v.Nil? {
      return 6;
    }
    var l := |v.entries|;
    EntriesLength(S, kt, vt, v, 0);
    if l == 0 {
      assert EncodeEntries(S, kt, vt, v, 0) == [] by { NoEntriesLength(S, kt, vt, v); }
      return 6;
    }
    size := 6;
    var doneK, doneV := false, false;
    if FixedSize(kt) > 0 {
      FixedKeysLength(S, kt, v, 0);
      size := size + l * FixedSize(kt);
      doneK := true;
    }
    if FixedSize(vt) > 0 {
      FixedValsLength(S, vt, v, 0);
      size := size + l * FixedSize(vt);
      doneV := true;
    }
    if doneK && doneV {
      return;
    }
    for j := 0 to l
      invariant size + (if doneK then 0 else KeysLen(S, kt, v, j)) + (if doneV then 0 else ValsLen(S, vt, v, j))
        == |EncodeMap(S, kt, vt, v)|
    {
      EntryLengths(S, kt, vt, v, j);
      if !doneK {
        var n := ElemSize(S, kt, v.entries[j].key);
        size := size + n;
      }
      if !doneV {
        var n := ElemSize(S, vt, v.entries[j].val);
        size := size + n;
      }
    }
    NoEntriesLength(S, kt, vt, v);
  }

  // ----- Lengths of containers

  lemma OneMoreField(S: Schema, sd: StructDesc, v: Value, idx: seq<nat>)
    requires Shaped(sd, v) && idx != [] && forall k :: 0 <= k < |idx| ==> idx[k] < |sd.fields|
    ensures FieldsLen(S, sd, v, idx)
      == FieldsLen(S, sd, v, idx[..|idx| - 1]) + |EncodeField(S, sd, idx[|idx| - 1], v.fields[idx[|idx| - 1]])|
  {
  }

  lemma ElemsLength(S: Schema, e: Type, v: Value, j: nat)
    requires v.List? && j < |v.elems|
    ensures |EncodeElems(S, e, v, j)| == |EncodeValue(S, e, v.elems[j])| + |EncodeElems(S, e, v, j + 1)|
  {
    hide Built, EncodeValue;
  }

  lemma {:induction false} FixedElemsLength(S: Schema, e: Type, v: Value, j: nat)
    requires v.List? && j <= |v.elems| && FixedSize(e) > 0
    ensures |EncodeElems(S, e, v, j)| == (|v.elems| - j) * FixedSize(e)
    decreases |v.elems| - j
  {
    hide Built, FixedSize, EncodeValue;
    if j < |v.elems| {
      FixedValueLength(S, e, v.elems[j]);
      FixedElemsLength(S, e, v, j + 1);
      Distribute(|v.elems| - j - 1, FixedSize(e));
    }
  }

  lemma FixedValueLength(S: Schema, t: Type, v: Value)
    requires FixedSize(t) > 0
    ensures |EncodeValue(S, t, v)| == FixedSize(t)
  {
  }

  lemma Distribute(n: nat, m: nat)
    ensures (n + 1) * m == n * m + m
  {
  }

  function KeysLen(S: Schema, kt: Type, v: Value, j: nat): nat
    requires v.Map? && j <= |v.entries|
    decreases |v.entries| - j
  {
    if j == |v.entries| then 0 else |EncodeValue(S, kt, v.entries[j].key)| + KeysLen(S, kt, v, j + 1)
  }

  function ValsLen(S: Schema, vt: Type, v: Value, j: nat): nat
    requires v.Map? && j <= |v.entries|
    decreases |v.entries| - j
  {
    if j == |v.entries| then 0 else |EncodeValue(S, vt, v.entries[j].val)| + ValsLen(S, vt, v, j + 1)
  }

  lemma {:induction false} EntriesLength(S: Schema, kt: Type, vt: Type, v: Value, j: nat)
    requires v.Map? && j <= |v.entries|
    ensures |EncodeEntries(S, kt, vt, v, j)| == KeysLen(S, kt, v, j) + ValsLen(S, vt, v, j)
    decreases |v.entries| - j
  {
    hide Built, EncodeValue, EncodeEntries, KeysLen, ValsLen;
    if j < |v.entries| {
      EntryLengths(S, kt, vt, v, j);
      EntriesLength(S, kt, vt, v, j + 1);
    } else {
      NoEntriesLength(S, kt, vt, v);
    }
  }

  lemma EntryLength(S: Schema, kt: Type, vt: Type, e: Entry)
    ensures |EncodeEntry(S, kt, vt, e)| == |EncodeValue(S, kt, e.key)| + |EncodeValue(S, vt, e.val)|
  {
    hide Built;
    FixedValueLength(S, TBool, e.key);
    FixedValueLength(S, TBool, e.val);
    hide EncodeValue;
  }

  lemma EntryLengths(S: Schema, kt: Type, vt: Type, v: Value, j: nat)
    requires v.Map? && j < |v.entries|
    ensures KeysLen(S, kt, v, j) == |EncodeValue(S, kt, v.entries[j].key)| + KeysLen(S, kt, v, j + 1)
    ensures ValsLen(S, vt, v, j) == |EncodeValue(S, vt, v.entries[j].val)| + ValsLen(S, vt, v, j + 1)
    ensures |EncodeEntries(S, kt, vt, v, j)|
      == |EncodeValue(S, kt, v.entries[j].key)| + |EncodeValue(S, vt, v.entries[j].val)|
         + |EncodeEntries(S, kt, vt, v, j + 1)|
  {
    hide Built, EncodeValue;
    EntriesSplit(S, kt, vt, v, j);
  }

  lemma EntriesSplit(S: Schema, kt: Type, vt: Type, v: Value, j: nat)
    requires v.Map? && j < |v.entries|
    ensures |EncodeEntries(S, kt, vt, v, j)|
      == |EncodeValue(S, kt, v.entries[j].key)| + |EncodeValue(S, vt, v.entries[j].val)|
         + |EncodeEntries(S, kt, vt, v, j + 1)|
  {
    hide Built, EncodeValue, EncodeEntry;
    EntryLength(S, kt, vt, v.entries[j]);
  }

  lemma NoEntriesLength(S: Schema, kt: Type, vt: Type, v: Value)
    requires v.Map?
    ensures EncodeEntries(S, kt, vt, v, |v.entries|) == []
    ensures KeysLen(S, kt, v, |v.entries|) == 0 && ValsLen(S, vt, v, |v.entries|) == 0
  {
  }

  lemma {:induction false} FixedKeysLength(S: Schema, kt: Type, v: Value, j: nat)
    requires v.Map? && j <= |v.entries| && FixedSize(kt) > 0
    ensures KeysLen(S, kt, v, j) == (|v.entries| - j) * FixedSize(kt)
    decreases |v.entries| - j
  {
    hide Built, FixedSize, EncodeValue, KeysLen;
    if j < |v.entries| {
      FixedValueLength(S, kt, v.entries[j].key);
      FixedKeysLength(S, kt, v, j + 1);
      EntryLengths(S, kt, TBool, v, j);
      Distribute(|v.entries| - j - 1, FixedSize(kt));
    } else {
      NoEntriesLength(S, kt, TBool, v);
    }
  }

  lemma {:induction false} FixedValsLength(S: Schema, vt: Type, v: Value, j: nat)
    requires v.Map? && j <= |v.entries| && FixedSize(vt) > 0
    ensures ValsLen(S, vt, v, j) == (|v.entries| - j) * FixedSize(vt)
    decreases |v.entries| - j
  {
    hide Built, FixedSize, EncodeValue, ValsLen;
    if j < |v.entries| {
      FixedValueLength(S, vt, v.entries[j].val);
      FixedValsLength(S, vt, v, j + 1);
      EntryLengths(S, TBool, vt, v, j);
      Distribute(|v.entries| - j - 1, FixedSize(vt));
    } else {
      NoEntriesLength(S, TBool, vt, v);
    }
  }
}
