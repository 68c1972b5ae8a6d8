/**
  A reference reader of the Thrift Binary Protocol for a schema: no depth budget, no length
  pre-checks, no failure kinds. It returns the value, the number of bytes it occupies and
  the depth budget that reading it takes. The decoder of internal/reflect/decoder.go is
  compared with it in module DepthBudget.
 */
module Reference {
  import opened Common
  import opened BigEndian
  import opened Schema
  import opened Skip

  datatype Read<+T> = Read(val: T, n: nat, cost: nat)

  /** `r` was read right behind `h`. */
  function Then<A, B>(h: Read<A>, r: Option<Read<B>>): Option<Read<B>> {
    match r
    case None => None
    case Some(x) => Some(Read(x.val, h.n + x.n, Max(h.cost, x.cost)))
  }

  /** The elements `r`, read right behind the element `h`. */
  function Cons<A>(h: Read<A>, r: Option<Read<seq<A>>>): Option<Read<seq<A>>> {
    match r
    case None => None
    case Some(x) => Some(Read([h.val] + x.val, h.n + x.n, Max(h.cost, x.cost)))
  }

  /** A value read behind a header of `n` bytes, one level of nesting deeper. */
  function Behind<A>(n: nat, r: Option<Read<A>>, f: A -> Value): Option<Read<Value>> {
    match r
    case None => None
    case Some(x) => Some(Read(f(x.val), n + x.n, 1 + x.cost))
  }

  /** What has been read of a struct: its fields, its unknown fields, the IDs seen. */
  datatype Partial = Partial(fields: seq<Value>, unknown: seq<Byte>, seen: set<nat>)

  /** int64(int32(n)) as a 64-bit pattern. */
  function SignExtend32(n: nat): nat
    requires n < TWO_32
  {
    if n < TWO_31 then n else n + (TWO_64 - TWO_32)
  }

  /** The in-memory pattern of the scalar at the start of `b`. */
  function GetFixed(t: Type, b: seq<Byte>): Value
    requires 0 < FixedSize(t) <= |b|
  {
    match t
    case TBool => Fixed(b[0])
    case TByte => Fixed(b[0])
    case TI16 => Fixed(Get16(b))
    case TI32 => Fixed(Get32(b))
    case TEnum => Fixed(SignExtend32(Get32(b)))
    case TPtr(e) => GetFixed(e, b)
    case TDouble => Fixed(Get64(b))
    case TI64 => Fixed(Get64(b))
  }

  /** A string or []byte; `cost` is what the caller charges for it. */
  function ReadString(b: seq<Byte>, cost: nat): (r: Option<Read<Value>>)
    ensures r.Some? ==> 4 <= r.value.n <= |b|
  {
    if |b| < 4 || Get32(b) >= TWO_31 || Get32(b) > |b| - 4 then None
    else Some(Read(Bytes(b[4..4 + Get32(b)]), 4 + Get32(b), cost))
  }

  function ReadValue(S: Schema, t: Type, b: seq<Byte>): (r: Option<Read<Value>>)
    ensures r.Some? ==> r.value.n <= |b|
    decreases |b|, 4, t
  {
    if FixedSize(t) > 0 then
      if |b| < FixedSize(t) then None else Some(Read(GetFixed(t, b), FixedSize(t), 0))
    else
      match t
      case TPtr(e) => ReadValue(S, e, b)
      case TStruct(name) => ReadNested(S, name, b)
      case TMap(kt, vt) => ReadMap(S, kt, vt, b)
      case TSet(et) => ReadList(S, et, b)
      case TList(et) => ReadList(S, et, b)
      case _ => ReadString(b, 1)
  }

  /** A struct behind a pointer: a fresh object is allocated and initialised for it. */
  function ReadNested(S: Schema, name: Name, b: seq<Byte>): (r: Option<Read<Value>>)
    ensures r.Some? ==> r.value.n <= |b|
    decreases |b|, 3
  {
    if name !in S then None
    else
      Behind(0, ReadStruct(S, S[name], b, Fresh(S[name])), (v: Value) => v)
  }

  function ReadMap(S: Schema, kt: Type, vt: Type, b: seq<Byte>): (r: Option<Read<Value>>)
    ensures r.Some? ==> r.value.n <= |b|
    decreases |b|, 3
  {
    if |b| < 6 || Get32(b[2..]) >= TWO_31 || b[0] != WireType(kt) || b[1] != WireType(vt) then None
    else
      Behind(6, ReadEntries(S, kt, vt, b[6..], Get32(b[2..])), (es: seq<Entry>) => Map(PutAll(kt, [], es)))
  }

  function ReadList(S: Schema, et: Type, b: seq<Byte>): (r: Option<Read<Value>>)
    ensures r.Some? ==> r.value.n <= |b|
    decreases |b|, 2
  {
    if |b| < 5 || Get32(b[1..]) >= TWO_31 || b[0] != WireType(et) then None
    else
      Behind(5, ReadElems(S, et, b[5..], Get32(b[1..])), (es: seq<Value>) => List(es))
  }

  function ReadElems(S: Schema, et: Type, b: seq<Byte>, l: nat): (r: Option<Read<seq<Value>>>)
    ensures r.Some? ==> r.value.n <= |b|
    decreases |b|, 5, l
  {
    if l == 0 then Some(Read([], 0, 0))
    else
      match ReadValue(S, et, b)
      case None => None
      case Some(h) => Cons(h, ReadElems(S, et, b[h.n..], l - 1))
  }

  function ReadEntry(S: Schema, kt: Type, vt: Type, b: seq<Byte>): (r: Option<Read<Entry>>)
    ensures r.Some? ==> r.value.n <= |b|
    decreases |b|, 5, 0
  {
    match ReadValue(S, kt, b)
    case None => None
    case Some(k) => WithValue(k, ReadValue(S, vt, b[k.n..]))
  }

  /** The entry of a key and the value behind it. */
  function WithValue(k: Read<Value>, r: Option<Read<Value>>): Option<Read<Entry>> {
    match r
    case None => None
    case Some(v) => Some(Read(Entry(k.val, v.val), k.n + v.n, Max(k.cost, v.cost)))
  }

  function ReadEntries(S: Schema, kt: Type, vt: Type, b: seq<Byte>, l: nat): (r: Option<Read<seq<Entry>>>)
    ensures r.Some? ==> r.value.n <= |b|
    decreases |b|, 6, l
  {
    if l == 0 then Some(Read([], 0, 0))
    else
      match ReadEntry(S, kt, vt, b)
      case None => None
      case Some(h) => Cons(h, ReadEntries(S, kt, vt, b[h.n..], l - 1))
  }

  /** The value of a struct field; nocopy strings are read without using the budget. */
  function ReadFieldValue(S: Schema, f: Field, b: seq<Byte>): (r: Option<Read<Value>>)
    ensures r.Some? ==> r.value.n <= |b|
    decreases |b|, 5
  {
    if FixedSize(f.typ) == 0 && f.noCopy then ReadString(b, 0) else ReadValue(S, f.typ, b)
  }

  /** One field of a struct, header included. */
  function ReadField(S: Schema, sd: StructDesc, b: seq<Byte>, p: Partial): (r: Option<Read<Partial>>)
    requires |p.fields| == |sd.fields|
    ensures r.Some? ==> 3 <= r.value.n <= |b| && |r.value.val.fields| == |sd.fields|
    decreases |b|, 0
  {
    if |b| < 3 then None
    else
      match KnownField(sd, b[0], Get16(b[1..]))
      case None =>
        (match SkipValue(b[0], b[3..])
         case None => None
         case Some(n) =>
           Some(Read(if sd.hasUnknown then p.(unknown := p.unknown + b[..3 + n]) else p, 3 + n, 0)))
      case Some(i) =>
        (match ReadFieldValue(S, sd.fields[i], b[3..])
         case None => None
         case Some(r) =>
           Some(Read(p.(fields := p.fields[i := r.val], seen := p.seen + {sd.fields[i].id}), 3 + r.n, r.cost)))
  }

  /** Fields up to and including the STOP byte. */
  function ReadFields(S: Schema, sd: StructDesc, b: seq<Byte>, p: Partial): (r: Option<Read<Partial>>)
    requires |p.fields| == |sd.fields|
    ensures r.Some? ==> 1 <= r.value.n <= |b| && |r.value.val.fields| == |sd.fields|
    decreases |b|, 1
  {
    if |b| == 0 then None
    else if b[0] == STOP then Some(Read(p, 1, 0))
    else
      match ReadField(S, sd, b, p)
      case None => None
      case Some(h) => Then(h, ReadFields(S, sd, b[h.n..], h.val))
  }

  /** All required fields have been seen. */
  predicate Complete(sd: StructDesc, p: Partial) {
    forall k :: 0 <= k < |sd.required| ==> sd.required[k] in p.seen
  }

  /** The target is overwritten field by field; no unknown fields leave its own untouched. */
  function Finish(p: Partial, target: Value): Value
    requires target.Struct?
  {
    Struct(p.fields, if p.unknown == [] then target.unknown else p.unknown)
  }

  function ReadStruct(S: Schema, sd: StructDesc, b: seq<Byte>, target: Value): (r: Option<Read<Value>>)
    requires target.Struct? && |target.fields| == |sd.fields|
    ensures r.Some? ==> r.value.n <= |b|
    decreases |b|, 2
  {
    match ReadFields(S, sd, b, Partial(target.fields, [], {}))
    case None => None
    case Some(r) => if Complete(sd, r.val) then Some(Read(Finish(r.val, target), r.n, 1 + r.cost)) else None
  }

  lemma NoElems(S: Schema, e: Type, b: seq<Byte>)
    ensures ReadElems(S, e, b, 0) == Some(Read([], 0, 0))
  {
  }

  lemma NoEntries(S: Schema, kt: Type, vt: Type, b: seq<Byte>)
    ensures ReadEntries(S, kt, vt, b, 0) == Some(Read([], 0, 0))
  {
  }
}
