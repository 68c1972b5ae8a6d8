/**
  Reading back what was encoded. The result is the value itself up to `Norm`: a nil slice or
  map that is on the wire comes back empty, a nil struct comes back as the default struct,
  a field that was left out holds what the target held before, and a bool that went through
  appendMapBool is 0 or 1.
 */
module ReadingBack {
  import opened Common
  import opened BigEndian
  import opened Schema
  import opened Skip
  import opened Reference
  import opened Wire

  // ----- What comes back

  function Norm(S: Schema, t: Type, v: Value): Value
    decreases v, 1, t
  {
    match t
    case TPtr(e) => Norm(S, e, v)
    case TBinary => Bytes(Content(v))
    case TStruct(name) =>
      if name !in S then Nil
      else if Shaped(S[name], v) then NormStruct(S, S[name], v, Fresh(S[name]))
      else Fresh(S[name])
    case TMap(kt, vt) => if v.Map? then Map(PutAll(kt, [], NormEntries(S, kt, vt, v, 0))) else Map([])
    case TSet(e) => if v.List? then List(NormElems(S, e, v, 0)) else List([])
    case TList(e) => if v.List? then List(NormElems(S, e, v, 0)) else List([])
    case _ => v
  }

  function NormElems(S: Schema, e: Type, v: Value, j: nat): seq<Value>
    requires v.List? && j <= |v.elems|
    decreases v, 0, |v.elems| - j
  {
    if j == |v.elems| then [] else [Norm(S, e, v.elems[j])] + NormElems(S, e, v, j + 1)
  }

  function NormPart(S: Schema, t: Type, v: Value, branch: bool): Value
    decreases v, 2
  {
    if branch && t.TBool? then Fixed(BoolBit(v)) else Norm(S, t, v)
  }

  function NormEntry(S: Schema, kt: Type, vt: Type, e: Entry): Entry
    decreases e, 0
  {
    var branch := Plain(kt) && Plain(vt);
    Entry(NormPart(S, kt, e.key, branch), NormPart(S, vt, e.val, branch))
  }

  function NormEntries(S: Schema, kt: Type, vt: Type, v: Value, j: nat): seq<Entry>
    requires v.Map? && j <= |v.entries|
    decreases v, 0, |v.entries| - j
  {
    if j == |v.entries| then [] else [NormEntry(S, kt, vt, v.entries[j])] + NormEntries(S, kt, vt, v, j + 1)
  }

  /** Field `k` after decoding into `target`. */
  function NormField(S: Schema, sd: StructDesc, k: nat, v: Value, target: Value): Value
    requires k < |sd.fields|
    decreases v, 2
  {
    if Skipped(sd, k, v) then target else Norm(S, sd.fields[k].typ, v)
  }

  function NormStruct(S: Schema, sd: StructDesc, v: Value, target: Value): Value
    requires Shaped(sd, v) && Shaped(sd, target)
    decreases v, 0
  {
    Struct(
      seq(|sd.fields|, k requires 0 <= k < |sd.fields| => NormField(S, sd, k, v.fields[k], target.fields[k])),
      if v.unknown == [] then target.unknown else v.unknown)
  }

  /**
    No struct pointer that is encoded as nil belongs to a struct with required fields: such
    a pointer is written as an empty struct, which does not pass the required check.
   */
  ghost predicate Restorable(S: Schema, t: Type, v: Value)
    decreases v, 1, t
  {
    match t
    case TPtr(e) => Restorable(S, e, v)
    case TStruct(name) =>
      name in S && if Shaped(S[name], v) then RestorableFields(S, S[name], v, 0) else S[name].required == []
    case TMap(kt, vt) => v.Map? ==> RestorableEntries(S, kt, vt, v, 0)
    case TSet(e) => v.List? ==> RestorableElems(S, e, v, 0)
    case TList(e) => v.List? ==> RestorableElems(S, e, v, 0)
    case _ => true
  }

  ghost predicate RestorableElems(S: Schema, e: Type, v: Value, j: nat)
    requires v.List? && j <= |v.elems|
    decreases v, 0, |v.elems| - j
  {
    j == |v.elems| || (Restorable(S, e, v.elems[j]) && RestorableElems(S, e, v, j + 1))
  }

  ghost predicate RestorableEntry(S: Schema, kt: Type, vt: Type, e: Entry)
    decreases e, 0
  {
    Restorable(S, kt, e.key) && Restorable(S, vt, e.val)
  }

  ghost predicate RestorableEntries(S: Schema, kt: Type, vt: Type, v: Value, j: nat)
    requires v.Map? && j <= |v.entries|
    decreases v, 0, |v.entries| - j
  {
    j == |v.entries| || (RestorableEntry(S, kt, vt, v.entries[j]) && RestorableEntries(S, kt, vt, v, j + 1))
  }

  ghost predicate RestorableField(S: Schema, sd: StructDesc, k: nat, v: Value)
    requires k < |sd.fields|
    decreases v, 2
  {
    Skipped(sd, k, v) || Restorable(S, sd.fields[k].typ, v)
  }

  ghost predicate RestorableFields(S: Schema, sd: StructDesc, v: Value, i: nat)
    requires Shaped(sd, v) && i <= |sd.fields|
    decreases v, 0, |sd.fields| - i
  {
    i == |sd.fields| || (RestorableField(S, sd, i, v.fields[i]) && RestorableFields(S, sd, v, i + 1))
  }

  // ----- Depth budget of a value

  function Cost(S: Schema, t: Type, v: Value): nat
    decreases v, 2, t
  {
    if FixedSize(t) > 0 then 0
    else
      match t
      case TPtr(e) => Cost(S, e, v)
      case TStruct(name) => if name in S && Shaped(S[name], v) then 1 + StructCost(S, S[name], v) else 2
      case TMap(kt, vt) => if v.Map? then 1 + EntriesCost(S, kt, vt, v, 0) else 1
      case TSet(e) => if v.List? then 1 + ElemsCost(S, e, v, 0) else 1
      case TList(e) => if v.List? then 1 + ElemsCost(S, e, v, 0) else 1
      case TString => 1
      case TBinary => 1
  }

  function ElemsCost(S: Schema, e: Type, v: Value, j: nat): nat
    requires v.List? && j <= |v.elems|
    decreases v, 1, |v.elems| - j
  {
    if j == |v.elems| then 0 else Max(Cost(S, e, v.elems[j]), ElemsCost(S, e, v, j + 1))
  }

  function EntryCost(S: Schema, kt: Type, vt: Type, e: Entry): nat
    decreases e, 0
  {
    Max(Cost(S, kt, e.key), Cost(S, vt, e.val))
  }

  function EntriesCost(S: Schema, kt: Type, vt: Type, v: Value, j: nat): nat
    requires v.Map? && j <= |v.entries|
    decreases v, 1, |v.entries| - j
  {
    if j == |v.entries| then 0 else Max(EntryCost(S, kt, vt, v.entries[j]), EntriesCost(S, kt, vt, v, j + 1))
  }

  function FieldCost(S: Schema, sd: StructDesc, k: nat, v: Value): nat
    requires k < |sd.fields|
    decreases v, 3
  {
    if Skipped(sd, k, v) || sd.fields[k].noCopy then 0 else Cost(S, sd.fields[k].typ, v)
  }

  function FieldsCost(S: Schema, sd: StructDesc, v: Value, i: nat): nat
    requires Shaped(sd, v) && i <= |sd.fields|
    decreases v, 0, |sd.fields| - i
  {
    if i == |sd.fields| then 0 else Max(FieldCost(S, sd, i, v.fields[i]), FieldsCost(S, sd, v, i + 1))
  }

  function StructCost(S: Schema, sd: StructDesc, v: Value): nat
    requires Shaped(sd, v)
    decreases v, 1
  {
    1 + FieldsCost(S, sd, v, 0)
  }

  // ----- Reading back

  /** The dereferenced pointer of a field is not nil; other types have no TPtr inside. */
  predicate Readable(t: Type, v: Value) {
    FieldType(t) && (t.TPtr? ==> !v.Nil?)
  }

  lemma ElemIsReadable(t: Type, v: Value)
    requires ElemType(t)
    ensures Readable(t, v)
  {
  }

  /** An enum in the int32 range survives truncation and sign extension. */
  lemma EnumReadsBack(bits: nat, s: seq<Byte>)
    requires InInt32(bits)
    ensures SignExtend32(Get32(Put32(bits) + s)) == bits
  {
    hide Put32, Get32;
    GetPut32(bits, s);
    if bits >= TWO_31 {
      var low := bits - (TWO_64 - TWO_32);
      assert bits == low + (TWO_32 - 1) * TWO_32;
      assert bits % TWO_32 == low;
    }
  }

  /** An enum outside that range does not: the codec loses it. */
  lemma EnumOutsideInt32IsLost(bits: nat, s: seq<Byte>)
    requires bits < TWO_64
    ensures SignExtend32(Get32(Put32(bits) + s)) == bits <==> InInt32(bits)
  {
    hide Put32, Get32;
    if InInt32(bits) {
      EnumReadsBack(bits, s);
    }
  }

  lemma {:induction false} FixedReadsBack(S: Schema, t: Type, v: Value, s: seq<Byte>)
    requires FixedSize(t) > 0 && Typed(S, t, v) && !v.Nil?
    ensures v.Fixed? && GetFixed(t, PutFixed(t, v.bits) + s) == v
    ensures Norm(S, t, v) == v && Restorable(S, t, v)
    decreases t
  {
    hide Built, Put16, Put32, Put64, Get16, Get32, Get64, SignExtend32, InInt32;
    match t
    case TPtr(e) => FixedReadsBack(S, e, v, s);
    case TBool =>
    case TByte =>
    case TI16 => GetPut16(v.bits, s);
    case TI32 => GetPut32(v.bits, s);
    case TEnum => EnumReadsBack(v.bits, s);
    case TDouble => GetPut64(v.bits, s);
    case TI64 => GetPut64(v.bits, s);
  }

  lemma StringReadsBack(d: seq<Byte>, s: seq<Byte>, cost: nat)
    requires |d| < TWO_31
    ensures ReadString(EncodeString(d) + s, cost) == Some(Read(Bytes(d), |EncodeString(d)|, cost))
  {
    hide Put32, Get32, Built;
    var b := EncodeString(d) + s;
    assert b == Put32(|d|) + (d + s);
    GetPut32(|d|, d + s);
    assert b[4..4 + |d|] == d;
  }

  lemma {:induction false} ValueReadsBack(S: Schema, t: Type, v: Value, s: seq<Byte>)
    requires Typed(S, t, v) && Readable(t, v)
    ensures ReadValue(S, t, EncodeValue(S, t, v) + s)
      == if Restorable(S, t, v)
         then Some(Read(Norm(S, t, v), |EncodeValue(S, t, v)|, Cost(S, t, v)))
         else None
    decreases v, 3, t
  {
    hide EncodeList, EncodeMap, EncodeStruct, ReadList, ReadMap, ReadNested, EncodeString, ReadString, PutFixed;
    hide GetFixed, Built;
    if FixedSize(t) > 0 {
      FixedReadsBack(S, t, v, s);
    } else {
      match t
      case TPtr(e) => StringReadsBack(v.data, s, 1);
      case TStruct(name) => NestedReadsBack(S, name, v, s);
      case TMap(kt, vt) => MapReadsBack(S, kt, vt, v, s);
      case TSet(e) => ListReadsBack(S, e, v, s);
      case TList(e) => ListReadsBack(S, e, v, s);
      case TString => StringReadsBack(Content(v), s, 1);
      case TBinary => StringReadsBack(Content(v), s, 1);
    }
  }

  lemma ListHeaderReads(wt: Byte, l: nat, body: seq<Byte>, s: seq<Byte>)
    requires l < TWO_31
    ensures var b := [wt] + Put32(l) + body + s;
      |b| >= 5 && b[0] == wt && Get32(b[1..]) == l && b[5..] == body + s
  {
    hide Built;
    var b := [wt] + Put32(l) + body + s;
    assert b[1..] == Put32(l) + (body + s);
    GetPut32(l, body + s);
  }

  lemma MapHeaderReads(kt: Byte, vt: Byte, l: nat, body: seq<Byte>, s: seq<Byte>)
    requires l < TWO_31
    ensures var b := [kt, vt] + Put32(l) + body + s;
      |b| >= 6 && b[0] == kt && b[1] == vt && Get32(b[2..]) == l && b[6..] == body + s
  {
    hide Built;
    var b := [kt, vt] + Put32(l) + body + s;
    assert b[2..] == Put32(l) + (body + s);
    GetPut32(l, body + s);
  }

  /** A list or set, as encoded and as read back. */
  lemma {:induction false} ListReadsBack(S: Schema, e: Type, v: Value, s: seq<Byte>)
    requires TypedList(S, e, v) && ElemType(e)
    ensures ReadList(S, e, EncodeList(S, e, v) + s)
      == if !v.List? then Some(Read(List([]), |EncodeList(S, e, v)|, 1))
         else if RestorableElems(S, e, v, 0)
         then Some(Read(List(NormElems(S, e, v, 0)), |EncodeList(S, e, v)|, 1 + ElemsCost(S, e, v, 0)))
         else None
    decreases v, 2
  {
    hide ReadElems, EncodeElems, NormElems, ElemsCost, RestorableElems, Built;
    hide Put32, Get32;
    if v.List? {
      ListHeaderReads(WireType(e), |v.elems|, EncodeElems(S, e, v, 0), s);
      ElemsReadBack(S, e, v, 0, s);
    } else {
      ListHeaderReads(WireType(e), 0, [], s);
      assert [WireType(e)] + Put32(0) + [] + s == EncodeList(S, e, v) + s;
      NoElems(S, e, [] + s);
    }
  }

  /** Reading one more element in front. */
  lemma ElemsStep(S: Schema, e: Type, h: seq<Byte>, rest: seq<Byte>, l: nat)
    requires l > 0
    requires var x := ReadValue(S, e, h + rest); x.Some? ==> x.value.n == |h|
    ensures ReadElems(S, e, h + rest, l)
      == match ReadValue(S, e, h + rest)
         case None => None
         case Some(x) => Cons(x, ReadElems(S, e, rest, l - 1))
  {
    hide ReadValue, Built;
    DropPrefix(h, rest);
  }

  lemma {:induction false} ElemReadsBack(S: Schema, e: Type, v: Value, j: nat, rest: seq<Byte>)
    requires v.List? && TypedList(S, e, v) && ElemType(e) && j < |v.elems|
    ensures ReadValue(S, e, EncodeValue(S, e, v.elems[j]) + rest)
      == if Restorable(S, e, v.elems[j])
         then Some(Read(Norm(S, e, v.elems[j]), |EncodeValue(S, e, v.elems[j])|, Cost(S, e, v.elems[j])))
         else None
    decreases v, 1, |v.elems| - j, 0
  {
    hide ReadValue, EncodeValue, Norm, Cost, Restorable, Typed, Built;
    ElemIsReadable(e, v.elems[j]);
    ValueReadsBack(S, e, v.elems[j], rest);
  }

  /** Element `j` stands in front of the others. */
  lemma ElemsSplit(S: Schema, e: Type, v: Value, j: nat, s: seq<Byte>)
    requires v.List? && j < |v.elems|
    ensures var h := EncodeValue(S, e, v.elems[j]);
      var r := EncodeElems(S, e, v, j + 1);
      EncodeElems(S, e, v, j) + s == h + (r + s) && |EncodeElems(S, e, v, j)| == |h| + |r|
  {
    hide Built, EncodeValue;
    Assoc(EncodeValue(S, e, v.elems[j]), EncodeElems(S, e, v, j + 1), s);
  }

  /** What is read of the elements from `j` on. */
  ghost function ElemsResult(S: Schema, e: Type, v: Value, j: nat): Option<Read<seq<Value>>>
    requires v.List? && j <= |v.elems|
  {
    if RestorableElems(S, e, v, j)
    then Some(Read(NormElems(S, e, v, j), |EncodeElems(S, e, v, j)|, ElemsCost(S, e, v, j)))
    else None
  }

  lemma ResultCons(S: Schema, e: Type, v: Value, j: nat)
    requires v.List? && j < |v.elems|
    ensures ElemsResult(S, e, v, j)
      == if Restorable(S, e, v.elems[j])
         then Cons(Read(Norm(S, e, v.elems[j]), |EncodeValue(S, e, v.elems[j])|, Cost(S, e, v.elems[j])),
                   ElemsResult(S, e, v, j + 1))
         else None
  {
    hide EncodeValue, Norm, Cost, Restorable, Built;
  }

  lemma NoResult(S: Schema, e: Type, v: Value)
    requires v.List?
    ensures ElemsResult(S, e, v, |v.elems|) == Some(Read([], 0, 0))
  {
  }

  lemma {:induction false} ElemsReadBack(S: Schema, e: Type, v: Value, j: nat, s: seq<Byte>)
    requires v.List? && TypedList(S, e, v) && ElemType(e) && j <= |v.elems|
    ensures ReadElems(S, e, EncodeElems(S, e, v, j) + s, |v.elems| - j) == ElemsResult(S, e, v, j)
    decreases v, 1, |v.elems| - j
  {
    hide ReadValue, ReadElems, EncodeValue, EncodeElems, Norm, Cost, Restorable, Typed, TypedList, ElemType;
    hide ElemsResult, Built;
    if j < |v.elems| {
      var rest := EncodeElems(S, e, v, j + 1) + s;
      ElemsSplit(S, e, v, j, s);
      ElemReadsBack(S, e, v, j, rest);
      ElemsReadBack(S, e, v, j + 1, s);
      ElemsStep(S, e, EncodeValue(S, e, v.elems[j]), rest, |v.elems| - j);
      ResultCons(S, e, v, j);
    } else {
      NoElems(S, e, EncodeElems(S, e, v, j) + s);
      NoResult(S, e, v);
    }
  }

  lemma {:induction false} MapReadsBack(S: Schema, kt: Type, vt: Type, v: Value, s: seq<Byte>)
    requires Typed(S, TMap(kt, vt), v) && ElemType(TMap(kt, vt))
    ensures ReadMap(S, kt, vt, EncodeMap(S, kt, vt, v) + s)
      == if !v.Map? then Some(Read(Map([]), |EncodeMap(S, kt, vt, v)|, 1))
         else if RestorableEntries(S, kt, vt, v, 0)
         then Some(Read(Map(PutAll(kt, [], NormEntries(S, kt, vt, v, 0))), |EncodeMap(S, kt, vt, v)|,
                        1 + EntriesCost(S, kt, vt, v, 0)))
         else None
    decreases v, 2
  {
    hide ReadEntries, EncodeEntries, NormEntries, EntriesCost, RestorableEntries;
    hide Put32, Get32, PutAll, WireType, Built;
    if v.Map? {
      MapHeaderReads(WireType(kt), WireType(vt), |v.entries|, EncodeEntries(S, kt, vt, v, 0), s);
      EntriesReadBack(S, kt, vt, v, 0, s);
    } else {
      MapHeaderReads(WireType(kt), WireType(vt), 0, [], s);
      assert [WireType(kt), WireType(vt)] + Put32(0) + [] + s == EncodeMap(S, kt, vt, v) + s;
      NoEntries(S, kt, vt, [] + s);
      PutAllNew(kt, []);
    }
  }

  lemma EntriesStep(S: Schema, kt: Type, vt: Type, h: seq<Byte>, rest: seq<Byte>, l: nat)
    requires l > 0
    requires var x := ReadEntry(S, kt, vt, h + rest); x.Some? ==> x.value.n == |h|
    ensures ReadEntries(S, kt, vt, h + rest, l)
      == match ReadEntry(S, kt, vt, h + rest)
         case None => None
         case Some(x) => Cons(x, ReadEntries(S, kt, vt, rest, l - 1))
  {
    hide ReadEntry, Built;
    DropPrefix(h, rest);
  }

  lemma {:induction false} EntriesReadBack(S: Schema, kt: Type, vt: Type, v: Value, j: nat, s: seq<Byte>)
    requires v.Map? && Typed(S, TMap(kt, vt), v) && ElemType(kt) && ElemType(vt) && j <= |v.entries|
    ensures ReadEntries(S, kt, vt, EncodeEntries(S, kt, vt, v, j) + s, |v.entries| - j)
      == if RestorableEntries(S, kt, vt, v, j)
         then Some(Read(NormEntries(S, kt, vt, v, j), |EncodeEntries(S, kt, vt, v, j)|, EntriesCost(S, kt, vt, v, j)))
         else None
    decreases v, 1, |v.entries| - j
  {
    hide ReadEntry, ReadEntries, EncodeEntry, NormEntry, EntryCost, RestorableEntry, ElemType, Built;
    if j < |v.entries| {
      var h := EncodeEntry(S, kt, vt, v.entries[j]);
      var rest := EncodeEntries(S, kt, vt, v, j + 1) + s;
      assert EncodeEntries(S, kt, vt, v, j) + s == h + rest by { Assoc(h, EncodeEntries(S, kt, vt, v, j + 1), s); }
      EntryReadsBack(S, kt, vt, v.entries[j], rest);
      EntriesReadBack(S, kt, vt, v, j + 1, s);
      EntriesStep(S, kt, vt, h, rest, |v.entries| - j);
    } else {
      NoEntries(S, kt, vt, EncodeEntries(S, kt, vt, v, j) + s);
    }
  }

  lemma {:induction false} EntryReadsBack(S: Schema, kt: Type, vt: Type, e: Entry, s: seq<Byte>)
    requires Typed(S, kt, e.key) && Typed(S, vt, e.val) && ElemType(kt) && ElemType(vt)
    ensures ReadEntry(S, kt, vt, EncodeEntry(S, kt, vt, e) + s)
      == if RestorableEntry(S, kt, vt, e)
         then Some(Read(NormEntry(S, kt, vt, e), |EncodeEntry(S, kt, vt, e)|, EntryCost(S, kt, vt, e)))
         else None
    decreases e, 0
  {
    hide ReadValue, EncodePart, NormPart, Cost, Restorable, Typed, ElemType, Built;
    var branch := Plain(kt) && Plain(vt);
    var k := EncodePart(S, kt, e.key, branch);
    var w := EncodePart(S, vt, e.val, branch);
    Assoc(k, w, s);
    DropPrefix(k, w + s);
    PartReadsBack(S, kt, e.key, branch, w + s);
    PartReadsBack(S, vt, e.val, branch, s);
  }

  lemma {:induction false} PartReadsBack(S: Schema, t: Type, v: Value, branch: bool, s: seq<Byte>)
    requires Typed(S, t, v) && ElemType(t)
    ensures ReadValue(S, t, EncodePart(S, t, v, branch) + s)
      == if Restorable(S, t, v)
         then Some(Read(NormPart(S, t, v, branch), |EncodePart(S, t, v, branch)|, Cost(S, t, v)))
         else None
    decreases v, 4
  {
    if !(branch && t.TBool?) {
      hide ReadValue, EncodeValue, Norm, Cost, Restorable, Typed, ElemType, Built;
      ElemIsReadable(t, v);
      ValueReadsBack(S, t, v, s);
    }
  }

  lemma {:induction false} NormEntryAt(S: Schema, kt: Type, vt: Type, v: Value, j: nat, k: nat)
    requires v.Map? && j <= k < |v.entries|
    ensures |NormEntries(S, kt, vt, v, j)| == |v.entries| - j
    ensures NormEntries(S, kt, vt, v, j)[k - j] == NormEntry(S, kt, vt, v.entries[k])
    decreases |v.entries| - j
  {
    hide NormEntry, Built;
    var rest := NormEntries(S, kt, vt, v, j + 1);
    if j + 1 < |v.entries| {
      NormEntryAt(S, kt, vt, v, j + 1, Max(k, j + 1));
    }
    assert NormEntries(S, kt, vt, v, j) == [NormEntry(S, kt, vt, v.entries[j])] + rest;
  }

  /** All keys are those of a Go map, also where they are bools. */
  predicate GoKeys(kt: Type, vt: Type, es: seq<Entry>) {
    forall j :: 0 <= j < |es| ==> GoBool(kt, es[j].key, Plain(kt) && Plain(vt))
  }

  /** Keys that differ still differ after decoding. */
  lemma NormKeepsDistinct(S: Schema, kt: Type, vt: Type, v: Value)
    requires v.Map? && Typed(S, TMap(kt, vt), v) && IsKeyType(kt) && GoKeys(kt, vt, v.entries)
    ensures DistinctKeys(kt, NormEntries(S, kt, vt, v, 0))
  {
    hide Built, NormPart;
    var branch := Plain(kt) && Plain(vt);
    var m := NormEntries(S, kt, vt, v, 0);
    if v.entries != [] {
      NormEntryAt(S, kt, vt, v, 0, 0);
    }
    forall i, j | 0 <= i < j < |m| ensures !KeyEq(kt, m[i].key, m[j].key) {
      NormEntryAt(S, kt, vt, v, 0, i);
      NormEntryAt(S, kt, vt, v, 0, j);
      assert !KeyEq(kt, v.entries[i].key, v.entries[j].key);
      NormKey(S, kt, v.entries[i].key, branch);
      NormKey(S, kt, v.entries[j].key, branch);
    }
  }

  /** Keys come back unchanged, except that struct keys come back as new objects. */
  lemma NormKey(S: Schema, kt: Type, k: Value, branch: bool)
    requires IsKeyType(kt) && Typed(S, kt, k) && GoBool(kt, k, branch)
    ensures if kt.TStruct? then !NormPart(S, kt, k, branch).Nil? else NormPart(S, kt, k, branch) == k
  {
    if kt.TStruct? {
      assert !Norm(S, kt, k).Nil?;
    } else {
      assert Norm(S, kt, k) == k;
    }
  }

  /** A map comes back entry by entry in the order of its iteration. */
  lemma MapKeepsEntries(S: Schema, kt: Type, vt: Type, v: Value)
    requires v.Map? && Typed(S, TMap(kt, vt), v) && IsKeyType(kt) && GoKeys(kt, vt, v.entries)
    ensures Norm(S, TMap(kt, vt), v) == Map(NormEntries(S, kt, vt, v, 0))
  {
    hide NormEntries, Typed;
    NormKeepsDistinct(S, kt, vt, v);
    PutAllNew(kt, NormEntries(S, kt, vt, v, 0));
  }

  lemma {:induction false} PutAllDistinct(kt: Type, m: seq<Entry>, es: seq<Entry>)
    requires DistinctKeys(kt, m + es)
    ensures PutAll(kt, m, es) == m + es
    decreases |es|
  {
    hide Built;
    if es != [] {
      forall i | 0 <= i < |m| ensures !KeyEq(kt, m[i].key, es[0].key) {
        assert (m + es)[i] == m[i] && (m + es)[|m|] == es[0];
      }
      assert MapPut(kt, m, es[0]) == m + [es[0]];
      assert m + es == m + [es[0]] + es[1..];
      PutAllDistinct(kt, m + [es[0]], es[1..]);
    } else {
      assert m + es == m;
    }
  }

  lemma PutAllNew(kt: Type, es: seq<Entry>)
    requires DistinctKeys(kt, es)
    ensures PutAll(kt, [], es) == es
  {
    hide Built;
    assert [] + es == es;
    PutAllDistinct(kt, [], es);
  }

  /** If no entry is lost, all are new. */
  lemma {:induction false} PutAllKeepsCount(kt: Type, m: seq<Entry>, es: seq<Entry>)
    ensures |PutAll(kt, m, es)| <= |m| + |es|
    ensures |PutAll(kt, m, es)| == |m| + |es| ==> PutAll(kt, m, es) == m + es
    decreases |es|
  {
    hide KeyEq, Built;
    if es != [] {
      var n := MapPut(kt, m, es[0]);
      PutAllKeepsCount(kt, n, es[1..]);
      if |n| == |m| + 1 {
        assert n == m + [es[0]] && n + es[1..] == m + es;
      }
    }
  }

  // ----- Structs

  lemma {:induction false} NestedReadsBack(S: Schema, name: Name, v: Value, s: seq<Byte>)
    requires Typed(S, TStruct(name), v)
    ensures ReadNested(S, name, EncodeValue(S, TStruct(name), v) + s)
      == if Restorable(S, TStruct(name), v)
         then Some(Read(Norm(S, TStruct(name), v), |EncodeValue(S, TStruct(name), v)|, Cost(S, TStruct(name), v)))
         else None
    decreases v, 2
  {
    hide EncodeStruct, NormStruct, RestorableFields, StructCost, ReadStruct;
    if Shaped(S[name], v) {
      StructReadsBack(S, S[name], v, Fresh(S[name]), s);
    } else {
      NilStructReadsBack(S, S[name], s);
    }
  }

  /** A nil struct is a bare STOP: it reads as the untouched target, if nothing is required. */
  lemma NilStructReadsBack(S: Schema, sd: StructDesc, s: seq<Byte>)
    ensures ReadStruct(S, sd, [STOP] + s, Fresh(sd)) == if sd.required == [] then Some(Read(Fresh(sd), 1, 1)) else None
  {
    var p := Partial(sd.init, [], {});
    assert ReadFields(S, sd, [STOP] + s, p) == Some(Read(p, 1, 0));
    if sd.required != [] {
      assert sd.required[0] !in p.seen;
    }
  }

  /** The fields after the first `i` have been dealt with. */
  function Mixed(S: Schema, sd: StructDesc, v: Value, target: Value, i: nat): (r: seq<Value>)
    requires Shaped(sd, v) && Shaped(sd, target)
    ensures |r| == |sd.fields|
  {
    seq(|sd.fields|, k requires 0 <= k < |sd.fields| =>
      if k < i then NormField(S, sd, k, v.fields[k], target.fields[k]) else target.fields[k])
  }

  function SeenIDs(sd: StructDesc, v: Value, i: nat): set<nat>
    requires Shaped(sd, v) && i <= |sd.fields|
  {
    set k | 0 <= k < i && !Skipped(sd, k, v.fields[k]) :: sd.fields[k].id
  }

  lemma {:induction false} StructReadsBack(S: Schema, sd: StructDesc, v: Value, target: Value, s: seq<Byte>)
    requires TypedStruct(S, sd, v) && Shaped(sd, target)
    ensures ReadStruct(S, sd, EncodeStruct(S, sd, v) + s, target)
      == if RestorableFields(S, sd, v, 0)
         then Some(Read(NormStruct(S, sd, v, target), |EncodeStruct(S, sd, v)|, StructCost(S, sd, v)))
         else None
    decreases v, 1
  {
    hide EncodeFields, ReadFields, FieldsCost, ValidUnknown, NormField, RestorableFields, Skipped, Built;
    var tail := v.unknown + [STOP] + s;
    assert EncodeStruct(S, sd, v) + s == EncodeFields(S, sd, v, 0) + tail;
    assert Mixed(S, sd, v, target, 0) == target.fields;
    assert SeenIDs(sd, v, 0) == {};
    FieldsReadBack(S, sd, v, target, 0, s);
    assert NormStruct(S, sd, v, target).fields == Mixed(S, sd, v, target, |sd.fields|);
    AllRequiredSeen(sd, v, Partial(Mixed(S, sd, v, target, |sd.fields|), v.unknown, SeenIDs(sd, v, |sd.fields|)));
  }

  lemma AllRequiredSeen(sd: StructDesc, v: Value, p: Partial)
    requires Shaped(sd, v) && p.seen == SeenIDs(sd, v, |sd.fields|)
    ensures Complete(sd, p)
  {
    forall k | 0 <= k < |sd.required| ensures sd.required[k] in p.seen {
      RequiredIsField(sd.fields, k);
    }
  }

  // One more field in front of what is read.
  lemma FieldsStep(S: Schema, sd: StructDesc, h: seq<Byte>, rest: seq<Byte>, p: Partial)
    requires |p.fields| == |sd.fields| && |h| > 0 && h[0] != STOP
    requires var x := ReadField(S, sd, h + rest, p); x.Some? ==> x.value.n == |h|
    ensures ReadFields(S, sd, h + rest, p)
      == match ReadField(S, sd, h + rest, p)
         case None => None
         case Some(x) => Then(x, ReadFields(S, sd, rest, x.val))
  {
    hide ReadField, Built;
    DropPrefix(h, rest);
  }

  /** The header that is written for a field selects that field. */
  lemma HeaderReads(S: Schema, sd: StructDesc, i: nat, c: seq<Byte>, p: Partial)
    requires |p.fields| == |sd.fields| && i < |sd.fields|
    ensures var f := sd.fields[i];
      ReadField(S, sd, FieldHeader(f) + c, p)
      == match ReadFieldValue(S, f, c)
         case None => None
         case Some(r) => Some(Read(p.(fields := p.fields[i := r.val], seen := p.seen + {f.id}), 3 + r.n, r.cost))
  {
    hide ReadFieldValue, KnownField, Put16, Get16;
    var f := sd.fields[i];
    var b := FieldHeader(f) + c;
    assert b[1..] == Put16(f.id) + c;
    assert sd.fieldIdx[f.id] == i;
    GetPut16(f.id, c);
    KnownFieldOf(sd, i);
    DropPrefix(FieldHeader(f), c);
  }

  lemma {:induction false} FieldValueReadsBack(S: Schema, sd: StructDesc, i: nat, v: Value, rest: seq<Byte>)
    requires i < |sd.fields| && Typed(S, sd.fields[i].typ, v) && !Skipped(sd, i, v)
    ensures ReadFieldValue(S, sd.fields[i], EncodeValue(S, sd.fields[i].typ, v) + rest)
      == if Restorable(S, sd.fields[i].typ, v)
         then Some(Read(Norm(S, sd.fields[i].typ, v), |EncodeValue(S, sd.fields[i].typ, v)|, FieldCost(S, sd, i, v)))
         else None
    decreases v, 4
  {
    var f := sd.fields[i];
    assert ResolvedField(f);
    if FixedSize(f.typ) == 0 && f.noCopy {
      StringReadsBack(Content(v), rest, 0);
    } else {
      ValueReadsBack(S, f.typ, v, rest);
    }
  }

  /** Field `i` is either absent or read, and leads to the state of field `i + 1`. */
  lemma {:induction false} FieldReadsBack(S: Schema, sd: StructDesc, v: Value, target: Value, i: nat, rest: seq<Byte>)
    requires TypedStruct(S, sd, v) && Shaped(sd, target) && i < |sd.fields|
    ensures var p := Partial(Mixed(S, sd, v, target, i), [], SeenIDs(sd, v, i));
      var q := Partial(Mixed(S, sd, v, target, i + 1), [], SeenIDs(sd, v, i + 1));
      var f := EncodeField(S, sd, i, v.fields[i]);
      ReadFields(S, sd, f + rest, p)
      == if !RestorableField(S, sd, i, v.fields[i]) then None
         else Then(Read(q, |f|, FieldCost(S, sd, i, v.fields[i])), ReadFields(S, sd, rest, q))
    decreases v, 0, |sd.fields| - i, 0
  {
    hide ReadFields, ReadField, ReadFieldValue, EncodeValue, Norm, Restorable, Cost, Skipped, Typed;
    var x := v.fields[i];
    var p := Partial(Mixed(S, sd, v, target, i), [], SeenIDs(sd, v, i));
    NextState(S, sd, v, target, i);
    if Skipped(sd, i, x) {
      assert [] + rest == rest;
    } else {
      var f := sd.fields[i];
      var c := EncodeValue(S, f.typ, x);
      Assoc(FieldHeader(f), c, rest);
      HeaderReads(S, sd, i, c + rest, p);
      FieldValueReadsBack(S, sd, i, x, rest);
      FieldsStep(S, sd, FieldHeader(f) + c, rest, p);
    }
  }

  lemma NextState(S: Schema, sd: StructDesc, v: Value, target: Value, i: nat)
    requires Shaped(sd, v) && Shaped(sd, target) && i < |sd.fields|
    ensures var m := Mixed(S, sd, v, target, i);
      var seen := SeenIDs(sd, v, i);
      if Skipped(sd, i, v.fields[i])
      then Mixed(S, sd, v, target, i + 1) == m && SeenIDs(sd, v, i + 1) == seen
      else Mixed(S, sd, v, target, i + 1) == m[i := Norm(S, sd.fields[i].typ, v.fields[i])]
           && SeenIDs(sd, v, i + 1) == seen + {sd.fields[i].id}
  {
    hide Skipped, Norm, Built;
  }

  /** Length of the first of some unknown fields. */
  function UnknownLen(sd: StructDesc, u: seq<Byte>): (n: nat)
    requires u != [] && ValidUnknown(sd, u)
    ensures 4 <= n <= |u| && u[0] != STOP && ValidUnknown(sd, u[n..])
  {
    3 + SkipValue(u[0], u[3..]).value
  }

  lemma UnknownFieldReads(S: Schema, sd: StructDesc, u: seq<Byte>, t: seq<Byte>, p: Partial)
    requires |p.fields| == |sd.fields| && u != [] && ValidUnknown(sd, u) && sd.hasUnknown
    ensures var h := u[..UnknownLen(sd, u)];
      ReadField(S, sd, h + t, p) == Some(Read(p.(unknown := p.unknown + h), |h|, 0))
  {
    hide SkipValue, KnownField, Built;
    var n := UnknownLen(sd, u);
    var b := u[..n] + t;
    assert Agree(u, b, n);
    AgreeDrop(u, b, n, 3);
    SkipValueLocal(u[0], u[3..], b[3..], n - 3);
    assert b[..n] == u[..n];
  }

  lemma UnknownStep(S: Schema, sd: StructDesc, u: seq<Byte>, p: Partial, s: seq<Byte>)
    requires |p.fields| == |sd.fields| && u != [] && ValidUnknown(sd, u) && sd.hasUnknown
    ensures var n := UnknownLen(sd, u);
      var q := p.(unknown := p.unknown + u[..n]);
      ReadFields(S, sd, u + [STOP] + s, p) == Then(Read(q, n, 0), ReadFields(S, sd, u[n..] + [STOP] + s, q))
  {
    hide ReadField, ReadFields, ValidUnknown, UnknownLen, Built;
    var n := UnknownLen(sd, u);
    var rest := u[n..] + [STOP] + s;
    assert u + [STOP] + s == u[..n] + rest;
    UnknownFieldReads(S, sd, u, rest, p);
    FieldsStep(S, sd, u[..n], rest, p);
  }

  lemma {:induction false} UnknownReadsBack(S: Schema, sd: StructDesc, u: seq<Byte>, p: Partial, s: seq<Byte>)
    requires |p.fields| == |sd.fields| && ValidUnknown(sd, u) && (sd.hasUnknown || u == [])
    ensures ReadFields(S, sd, u + [STOP] + s, p) == Some(Read(p.(unknown := p.unknown + u), |u| + 1, 0))
    decreases |u|
  {
    hide ReadField, ValidUnknown, UnknownLen, Built;
    if u == [] {
      assert p.unknown + u == p.unknown;
    } else {
      hide ReadFields;
      var n := UnknownLen(sd, u);
      UnknownStep(S, sd, u, p, s);
      UnknownReadsBack(S, sd, u[n..], p.(unknown := p.unknown + u[..n]), s);
      assert p.unknown + u[..n] + u[n..] == p.unknown + u;
    }
  }

  /** From field `i` on: the remaining fields, the unknown fields and STOP. */
  lemma {:induction false} FieldsReadBack(S: Schema, sd: StructDesc, v: Value, target: Value, i: nat, s: seq<Byte>)
    requires TypedStruct(S, sd, v) && Shaped(sd, target) && i <= |sd.fields|
    ensures ReadFields(S, sd, EncodeFields(S, sd, v, i) + (v.unknown + [STOP] + s),
                       Partial(Mixed(S, sd, v, target, i), [], SeenIDs(sd, v, i)))
      == if RestorableFields(S, sd, v, i)
         then Some(Read(Partial(Mixed(S, sd, v, target, |sd.fields|), v.unknown, SeenIDs(sd, v, |sd.fields|)),
                        |EncodeFields(S, sd, v, i)| + |v.unknown| + 1, FieldsCost(S, sd, v, i)))
         else None
    decreases v, 0, |sd.fields| - i
  {
    hide ReadFields, Skipped, ValidUnknown, RestorableField, Mixed, SeenIDs, Typed, EncodeField, Built;
    var tail := v.unknown + [STOP] + s;
    if i == |sd.fields| {
      assert EncodeFields(S, sd, v, i) + tail == tail by { assert EncodeFields(S, sd, v, i) == []; }
      UnknownReadsBack(S, sd, v.unknown, Partial(Mixed(S, sd, v, target, i), [], SeenIDs(sd, v, i)), s);
      assert [] + v.unknown == v.unknown;
    } else {
      var f := EncodeField(S, sd, i, v.fields[i]);
      FieldsReadBack(S, sd, v, target, i + 1, s);
      Assoc(f, EncodeFields(S, sd, v, i + 1), tail);
      FieldReadsBack(S, sd, v, target, i, EncodeFields(S, sd, v, i + 1) + tail);
    }
  }
}
