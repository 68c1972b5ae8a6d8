/**
  What tDecoder.Decode and decodeType compute (internal/reflect/decoder.go), as functions of
  the buffer: the same checks in the same order, a depth budget, and three outcomes. Panic is
  an index out of range or a nil descriptor. The methods of module Decoder refine these.
 */
module Decoding {
  import opened Common
  import opened BigEndian
  import opened Schema
  import opened Skip
  import opened Reference

  datatype ErrorKind =
    | DepthLimit | NegativeSize | ShortBuffer | SizeExceedsBuffer | TypeMismatch | RequiredNotSet | SkipFailed

  /** `at` is the offset that is returned with the error. */
  datatype Outcome<+T> = Ok(val: T, n: nat) | Err(at: nat, kind: ErrorKind) | Panic

  function DecodeFixed(t: Type, b: seq<Byte>): (r: Outcome<Value>)
    requires FixedSize(t) > 0
    ensures r.Ok? ==> r.n <= |b|
  {
    if |b| < FixedSize(t) then Panic else Ok(GetFixed(t, b), FixedSize(t))
  }

  /** Strings and []byte, with and without nocopy. */
  function DecodeString(b: seq<Byte>): (r: Outcome<Value>)
    ensures r.Ok? ==> r.n <= |b|
  {
    if |b| < 4 then Err(0, ShortBuffer)
    else if Get32(b) >= TWO_31 then Err(0, NegativeSize)
    else if Get32(b) == 0 then Ok(Bytes([]), 4)
    else if Get32(b) > |b| - 4 then Err(4, SizeExceedsBuffer)
    else Ok(Bytes(b[4..4 + Get32(b)]), 4 + Get32(b))
  }

  function DecodeType(S: Schema, t: Type, b: seq<Byte>, depth: nat): (r: Outcome<Value>)
    ensures r.Ok? ==> r.n <= |b|
    decreases depth, 4, t
  {
    if depth == 0 then Err(0, DepthLimit)
    else if FixedSize(t) > 0 then DecodeFixed(t, b)
    else
      match t
      case TPtr(e) => DecodeType(S, e, b, depth)
      case TStruct(name) => if name in S then DecodeStruct(S, S[name], b, Fresh(S[name]), depth - 1) else Panic
      case TMap(kt, vt) => DecodeMap(S, kt, vt, b, depth)
      case TSet(et) => DecodeList(S, et, b, depth)
      case TList(et) => DecodeList(S, et, b, depth)
      case TString => DecodeString(b)
      case TBinary => DecodeString(b)
  }

  function DecodeMap(S: Schema, kt: Type, vt: Type, b: seq<Byte>, depth: nat): (r: Outcome<Value>)
    requires depth > 0
    ensures r.Ok? ==> r.n <= |b|
    decreases depth, 3
  {
    if |b| < 6 then Err(0, ShortBuffer)
    else if Get32(b[2..]) >= TWO_31 then Err(0, NegativeSize)
    else if b[0] != WireType(kt) || b[1] != WireType(vt) then Err(0, TypeMismatch)
    else if Get32(b[2..]) > Room(|b| - 6, MinWireSize(WireType(kt)) + MinWireSize(WireType(vt))) then
      Err(6, SizeExceedsBuffer)
    else DecodeEntries(S, kt, vt, b, 6, Get32(b[2..]), [], depth - 1)
  }

  /** How many items of at least `size` bytes fit into `remain` bytes. */
  function Room(remain: nat, size: nat): nat {
    if size == 0 then 0 else remain / size
  }

  function DecodeList(S: Schema, et: Type, b: seq<Byte>, depth: nat): (r: Outcome<Value>)
    requires depth > 0
    ensures r.Ok? ==> r.n <= |b|
    decreases depth, 3
  {
    if |b| < 5 then Err(0, ShortBuffer)
    else if Get32(b[1..]) >= TWO_31 then Err(0, NegativeSize)
    else if b[0] != WireType(et) then Err(0, TypeMismatch)
    else if Get32(b[1..]) == 0 then Ok(List([]), 5)
    else if Get32(b[1..]) > Room(|b| - 5, MinWireSize(WireType(et))) then Err(5, SizeExceedsBuffer)
    else DecodeElems(S, et, b, 5, Get32(b[1..]), [], depth - 1)
  }

  /** An element or field value: scalars do not use the budget. */
  function DecodeElem(S: Schema, t: Type, b: seq<Byte>, depth: nat): (r: Outcome<Value>)
    ensures r.Ok? ==> r.n <= |b|
    decreases depth, 5, t
  {
    if FixedSize(t) > 0 then DecodeFixed(t, b) else DecodeType(S, t, b, depth)
  }

  /** `l` more elements from offset `i` on, after `acc`. */
  function DecodeElems(S: Schema, et: Type, b: seq<Byte>, i: nat, l: nat, acc: seq<Value>,
                       depth: nat): (r: Outcome<Value>)
    requires i <= |b|
    ensures r.Ok? ==> r.n <= |b|
    decreases depth, 6, l
  {
    if l == 0 then Ok(List(acc), i)
    else
      match DecodeElem(S, et, b[i..], depth)
      case Panic => Panic
      case Err(_, kind) => Err(i, kind)
      case Ok(v, n) => DecodeElems(S, et, b, i + n, l - 1, acc + [v], depth)
  }

  /** A key and a value; the element that fails determines the offset of the error. */
  function DecodeEntry(S: Schema, kt: Type, vt: Type, b: seq<Byte>, depth: nat): (r: Outcome<Entry>)
    ensures r.Ok? ==> r.n <= |b|
    decreases depth, 6, 0
  {
    match DecodeElem(S, kt, b, depth)
    case Panic => Panic
    case Err(_, kind) => Err(0, kind)
    case Ok(k, n) => EntryOf(k, n, DecodeElem(S, vt, b[n..], depth))
  }

  /** A key of `n` bytes and what was decoded behind it. */
  function EntryOf(k: Value, n: nat, o: Outcome<Value>): Outcome<Entry> {
    match o
    case Panic => Panic
    case Err(_, kind) => Err(n, kind)
    case Ok(v, m) => Ok(Entry(k, v), n + m)
  }

  function DecodeEntries(S: Schema, kt: Type, vt: Type, b: seq<Byte>, i: nat, l: nat, m: seq<Entry>,
                         depth: nat): (r: Outcome<Value>)
    requires i <= |b|
    ensures r.Ok? ==> r.n <= |b|
    decreases depth, 7, l
  {
    if l == 0 then Ok(Map(m), i)
    else
      match DecodeEntry(S, kt, vt, b[i..], depth)
      case Panic => Panic
      case Err(at, kind) => Err(i + at, kind)
      case Ok(e, n) => DecodeEntries(S, kt, vt, b, i + n, l - 1, MapPut(kt, m, e), depth)
  }

  function DecodeFieldValue(S: Schema, f: Field, b: seq<Byte>, depth: nat): (r: Outcome<Value>)
    ensures r.Ok? ==> r.n <= |b|
    decreases depth, 6
  {
    if FixedSize(f.typ) == 0 && f.noCopy then DecodeString(b) else DecodeElem(S, f.typ, b, depth)
  }

  /** One field, header included. */
  function DecodeField(S: Schema, sd: StructDesc, b: seq<Byte>, p: Partial, depth: nat): (r: Outcome<Partial>)
    requires |p.fields| == |sd.fields|
    ensures r.Ok? ==> 3 <= r.n <= |b| && |r.val.fields| == |sd.fields|
    decreases depth, 7
  {
    if |b| < 3 then Panic
    else
      match KnownField(sd, b[0], Get16(b[1..]))
      case None =>
        (match SkipValue(b[0], b[3..])
         case None => Err(3, SkipFailed)
         case Some(n) => Ok(if sd.hasUnknown then p.(unknown := p.unknown + b[..3 + n]) else p, 3 + n))
      case Some(k) =>
        (match DecodeFieldValue(S, sd.fields[k], b[3..], depth)
         case Panic => Panic
         case Err(_, kind) => Err(3, kind)
         case Ok(v, n) => Ok(p.(fields := p.fields[k := v], seen := p.seen + {sd.fields[k].id}), 3 + n))
  }

  /** The loop of Decode from offset `i` on. */
  function DecodeFields(S: Schema, sd: StructDesc, b: seq<Byte>, i: nat, p: Partial, depth: nat): (r: Outcome<Partial>)
    requires |p.fields| == |sd.fields| && i <= |b|
    ensures r.Ok? ==> r.n <= |b| && |r.val.fields| == |sd.fields|
    decreases depth, 8, |b| - i
  {
    if i == |b| then Panic
    else if b[i] == STOP then Ok(p, i + 1)
    else
      match DecodeField(S, sd, b[i..], p, depth)
      case Panic => Panic
      case Err(at, kind) => Err(i + at, kind)
      case Ok(q, n) => DecodeFields(S, sd, b, i + n, q, depth)
  }

  function DecodeStruct(S: Schema, sd: StructDesc, b: seq<Byte>, target: Value, depth: nat): (r: Outcome<Value>)
    requires target.Struct? && |target.fields| == |sd.fields|
    ensures r.Ok? ==> r.n <= |b|
    decreases depth, 2
  {
    if depth == 0 then Err(0, DepthLimit)
    else
      match DecodeFields(S, sd, b, 0, Partial(target.fields, [], {}), depth - 1)
      case Panic => Panic
      case Err(at, kind) => Err(at, kind)
      case Ok(p, n) => if Complete(sd, p) then Ok(Finish(p, target), n) else Err(n, RequiredNotSet)
  }

  // ----- One unfolding of each function

  lemma UnfoldType(S: Schema, t: Type, b: seq<Byte>, depth: nat)
    ensures depth == 0 ==> DecodeType(S, t, b, depth) == Err(0, DepthLimit)
    ensures depth > 0 && FixedSize(t) > 0 ==> DecodeType(S, t, b, depth) == DecodeFixed(t, b)
    ensures depth > 0 && FixedSize(t) == 0 ==> var r := DecodeType(S, t, b, depth);
      && (t.TPtr? ==> r == DecodeType(S, t.pointee, b, depth))
      && (t.TString? || t.TBinary? ==> r == DecodeString(b))
      && (t.TMap? ==> r == DecodeMap(S, t.key, t.val, b, depth))
      && (t.TSet? || t.TList? ==> r == DecodeList(S, t.elem, b, depth))
      && (t.TStruct? && t.name !in S ==> r == Panic)
      && (t.TStruct? && t.name in S ==> r == DecodeStruct(S, S[t.name], b, Fresh(S[t.name]), depth - 1))
  {
    hide DecodeMap, DecodeList, DecodeStruct, DecodeString, DecodeFixed;
  }

  lemma UnfoldEntry(S: Schema, kt: Type, vt: Type, b: seq<Byte>, depth: nat)
    ensures var k := DecodeElem(S, kt, b, depth);
      DecodeEntry(S, kt, vt, b, depth)
      == if k.Ok? then EntryOf(k.val, k.n, DecodeElem(S, vt, b[k.n..], depth))
         else if k.Err? then Err(0, k.kind) else Panic
  {
    hide DecodeElem, EntryOf, Built;
  }

  lemma UnfoldElems(S: Schema, et: Type, b: seq<Byte>, i: nat, l: nat, acc: seq<Value>, depth: nat)
    requires i <= |b|
    ensures l == 0 ==> DecodeElems(S, et, b, i, l, acc, depth) == Ok(List(acc), i)
    ensures l > 0 ==> var o := DecodeElem(S, et, b[i..], depth);
      DecodeElems(S, et, b, i, l, acc, depth)
      == if o.Ok? then DecodeElems(S, et, b, i + o.n, l - 1, acc + [o.val], depth)
         else if o.Err? then Err(i, o.kind) else Panic
  {
    hide DecodeElem, Built;
  }

  lemma UnfoldEntries(S: Schema, kt: Type, vt: Type, b: seq<Byte>, i: nat, l: nat, m: seq<Entry>, depth: nat)
    requires i <= |b|
    ensures l == 0 ==> DecodeEntries(S, kt, vt, b, i, l, m, depth) == Ok(Map(m), i)
    ensures l > 0 ==> var o := DecodeEntry(S, kt, vt, b[i..], depth);
      DecodeEntries(S, kt, vt, b, i, l, m, depth)
      == if o.Ok? then DecodeEntries(S, kt, vt, b, i + o.n, l - 1, MapPut(kt, m, o.val), depth)
         else if o.Err? then Err(i + o.at, o.kind) else Panic
  {
    hide DecodeEntry, MapPut, Built;
  }

  lemma UnfoldFields(S: Schema, sd: StructDesc, b: seq<Byte>, i: nat, p: Partial, depth: nat)
    requires |p.fields| == |sd.fields| && i <= |b|
    ensures i == |b| ==> DecodeFields(S, sd, b, i, p, depth) == Panic
    ensures i < |b| && b[i] == STOP ==> DecodeFields(S, sd, b, i, p, depth) == Ok(p, i + 1)
    ensures i < |b| && b[i] != STOP ==> var o := DecodeField(S, sd, b[i..], p, depth);
      DecodeFields(S, sd, b, i, p, depth)
      == if o.Ok? then DecodeFields(S, sd, b, i + o.n, o.val, depth)
         else if o.Err? then Err(i + o.at, o.kind) else Panic
  {
    hide DecodeField, Built;
  }

  lemma UnfoldStruct(S: Schema, sd: StructDesc, b: seq<Byte>, target: Value, depth: nat)
    requires target.Struct? && |target.fields| == |sd.fields|
    ensures depth == 0 ==> DecodeStruct(S, sd, b, target, depth) == Err(0, DepthLimit)
    ensures depth > 0 ==> var o := DecodeFields(S, sd, b, 0, Partial(target.fields, [], {}), depth - 1);
      DecodeStruct(S, sd, b, target, depth)
      == if o.Ok? then if Complete(sd, o.val) then Ok(Finish(o.val, target), o.n) else Err(o.n, RequiredNotSet)
         else if o.Err? then Err(o.at, o.kind) else Panic
  {
    hide DecodeFields, Complete, Built;
  }

  lemma UnfoldField(S: Schema, sd: StructDesc, b: seq<Byte>, p: Partial, depth: nat)
    requires |p.fields| == |sd.fields|
    ensures |b| < 3 ==> DecodeField(S, sd, b, p, depth) == Panic
    ensures |b| >= 3 && KnownField(sd, b[0], Get16(b[1..])).None? ==>
      var n := SkipValue(b[0], b[3..]);
      DecodeField(S, sd, b, p, depth)
      == if n.None? then Err(3, SkipFailed)
         else Ok(if sd.hasUnknown then p.(unknown := p.unknown + b[..3 + n.value]) else p, 3 + n.value)
    ensures |b| >= 3 && KnownField(sd, b[0], Get16(b[1..])).Some? ==>
      var k := KnownField(sd, b[0], Get16(b[1..])).value;
      var o := DecodeFieldValue(S, sd.fields[k], b[3..], depth);
      DecodeField(S, sd, b, p, depth)
      == if o.Ok? then Ok(p.(fields := p.fields[k := o.val], seen := p.seen + {sd.fields[k].id}), 3 + o.n)
         else if o.Err? then Err(3, o.kind) else Panic
  {
    hide DecodeFieldValue, SkipValue, KnownField, Get16, Built;
  }
}
