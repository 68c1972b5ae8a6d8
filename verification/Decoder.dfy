/**
  tDecoder (internal/reflect/decoder.go): a moving index into the buffer, structs filled
  field by field in place, slices and maps filled element by element, the bitset of required
  fields and the list of unknown fields taken dirty from their pools. Every method returns
  what the function of the same name in module Decoding says, and bounds the memory it asks for.
 */
module Decoder {
  import opened Common
  import opened BigEndian
  import opened Schema
  import opened Skip
  import opened Reference
  import opened Decoding
  import opened Bitsets
  import opened UnknownFields
  import DepthBudget

  /** The memory of a struct that is being decoded into. */
  class Object {
    const fields: array<Value>
    var unknown: seq<Byte>

    /** Allocated, and set up by InitDefault if the type has it. */
    constructor (init: seq<Value>)
      ensures fresh(fields) && Content() == Struct(init, [])
    {
      fields := new Value[|init|](k requires 0 <= k < |init| => init[k]);
      unknown := [];
      new;
      assert fields[..] == init;
    }

    function Content(): Value
      reads this, fields
    {
      Struct(fields[..], unknown)
    }
  }

  /** The outcome of decoding into an object that now holds `v`. */
  function Loaded(r: Outcome<()>, v: Value): Outcome<Value> {
    match r
    case Ok(_, n) => Ok(v, n)
    case Err(at, kind) => Err(at, kind)
    case Panic => Panic
  }

  // ----- What the loop of Decode keeps up to date

  /** The objects taken from the pools. */
  ghost function Pooled(bs: Bitset?, ufs: UnknownFields?): set<object> {
    (if bs == null then {} else {bs.data}) + (if ufs == null then {} else {ufs})
  }

  /** Of the required fields, exactly those in `seen` are marked. */
  ghost predicate Marked(bs: Bitset, required: seq<nat>, seen: set<nat>)
    reads bs.data
  {
    && bs.Valid()
    && forall k :: 0 <= k < |required| ==> required[k] < 0x1_0000 && (bs.Has(required[k]) <==> required[k] in seen)
  }

  ghost predicate Tracks(sd: StructDesc, b: seq<Byte>, base: Object, bs: Bitset?, ufs: UnknownFields?, p: Partial)
    reads base.fields, Pooled(bs, ufs)
  {
    && base.fields.Length == |sd.fields| && base.fields[..] == p.fields
    && (bs == null ==> sd.required == [])
    && (bs != null ==> Marked(bs, sd.required, p.seen) && bs.data as object != base.fields)
    && (ufs == null <==> !sd.hasUnknown)
    && (ufs == null ==> p.unknown == [])
    && (ufs != null ==> ufs.Valid() && Within(ufs.offs, |b|) && p.unknown == Pieces(b, ufs.offs))
  }

  /** `r` reports what `o` says; on success the loop goes on from `q`. */
  predicate Follows(r: Outcome<()>, q: Partial, o: Outcome<Partial>) {
    match o
    case Panic => r == Panic
    case Err(at, kind) => r == Err(at, kind)
    case Ok(p, n) => r == Ok((), n) && q == p
  }

  lemma NoteOne(b: seq<Byte>, offs: seq<Idx>, off: nat, n: nat)
    requires Within(offs, |b|) && off + n <= |b|
    ensures Within(offs + [Idx(off, n)], |b|)
    ensures Pieces(b, offs + [Idx(off, n)]) == Pieces(b, offs) + b[off..][..n]
  {
    assert (offs + [Idx(off, n)])[..|offs|] == offs;
    assert b[off..][..n] == b[off..off + n];
  }

  lemma RequiredBelow(sd: StructDesc, k: nat)
    requires k < |sd.required|
    ensures sd.required[k] < 0x1_0000
  {
    RequiredIsField(sd.fields, k);
  }

  lemma StartTracking(sd: StructDesc, b: seq<Byte>, base: Object, bs: Bitset?, ufs: UnknownFields?, p: Partial)
    requires base.fields.Length == |sd.fields| && p == Partial(base.fields[..], [], {})
    requires if sd.required == [] then bs == null
      else bs != null && Marked(bs, sd.required, {}) && bs.data as object != base.fields
    requires if sd.hasUnknown then ufs != null && ufs.Valid() && ufs.offs == [] else ufs == null
    ensures Tracks(sd, b, base, bs, ufs, p)
  {
  }

  // ----- What a decode asks for

  /**
    `used` container slots were asked for while decoding from `len` bytes with budget
    `depth`: in total no more than the budget times the bytes and, if decoding succeeded,
    fewer than the bytes that were consumed.
   */
  ghost predicate Bounded<A>(r: Outcome<A>, used: int, len: nat, depth: nat) {
    && 0 <= used <= depth * len
    && (r.Ok? ==> used < r.n)
  }

  lemma NothingAsked<A>(r: Outcome<A>, len: nat, depth: nat)
    requires r.Ok? ==> r.n > 0
    ensures Bounded(r, 0, len, depth)
  {
  }

  lemma BehindHeader<A, B>(o: Outcome<A>, used: int, r: Outcome<B>, len: nat, depth: nat)
    requires Bounded(o, used, len, depth) && (r.Ok? ==> o.Ok? && r.n >= o.n)
    ensures Bounded(r, used, len + 3, depth)
  {
    assert depth * (len + 3) == depth * len + depth * 3;
  }

  /** What the parts of a container that were decoded from `n` bytes have asked for. */
  ghost predicate Prior(used: int, n: int, depth: nat) {
    0 <= used <= n && (depth == 0 ==> used == 0)
  }

  lemma OneMorePart<A>(o: Outcome<A>, more: int, len: nat, used: int, n: int, depth: nat)
    requires o.Ok? && Bounded(o, more, len, depth) && Prior(used, n, depth)
    ensures Prior(used + more, n + o.n - 1, depth) && Prior(used + more, n + o.n, depth)
  {
  }

  lemma Total(depth: nat, i: nat, len: nat, used: int, more: int)
    requires i <= len && Prior(used, i, depth) && 0 <= more <= depth * (len - i)
    ensures 0 <= used + more <= depth * len
  {
    if depth > 0 {
      assert depth * len == depth * i + depth * (len - i);
      assert i <= depth * i;
    }
  }

  /** Decoding fails in the part that starts at `i`, in a container of `l` slots of its own. */
  lemma PartFails<A, B>(o: Outcome<A>, more: int, r: Outcome<B>, depth: nat,
                        l: nat, n: nat, i: nat, len: nat, used: int)
    requires l <= len && n <= i <= len && !r.Ok?
    requires Prior(used, n, depth) && Bounded(o, more, len - i, depth)
    ensures Bounded(r, l + used + more, len, depth + 1)
  {
    Total(depth, i, len, used, more);
    assert (depth + 1) * len == depth * len + len;
  }

  lemma SameEnd<A>(o: Outcome<A>, used: int, r: Outcome<A>, len: nat, depth: nat)
    requires Bounded(o, used, len, depth) && (r.Ok? ==> o.Ok? && r.n == o.n)
    ensures Bounded(r, used, len, depth)
  {
  }

  lemma OneLevelUp<A, B>(o: Outcome<A>, used: int, r: Outcome<B>, len: nat, depth: nat)
    requires Bounded(o, used, len, depth) && (r.Ok? ==> o.Ok? && r.n == o.n)
    ensures Bounded(r, used, len, depth + 1)
  {
    assert (depth + 1) * len == depth * len + len;
  }

  lemma LateFailure<B>(r: Outcome<B>, depth: nat, i: nat, len: nat, used: int)
    requires !r.Ok? && i <= len && Prior(used, i, depth)
    ensures Bounded(r, used, len, depth + 1)
  {
    Total(depth, i, len, used, 0);
    assert (depth + 1) * len == depth * len + len;
  }

  lemma AllPartsDone<B>(r: Outcome<B>, depth: nat, l: nat, n: nat, len: nat, used: int)
    requires r.Ok? && r.n <= len && l <= len && Prior(used, n, depth) && l + n < r.n
    ensures Bounded(r, l + used, len, depth + 1)
  {
    Total(depth, r.n, len, used, 0);
    assert (depth + 1) * len == depth * len + len;
  }

  lemma NothingYet(depth: nat)
    ensures Prior(0, 0, depth)
  {
  }

  lemma ItFails<A, B>(o: Outcome<A>, used: int, r: Outcome<B>, len: nat, depth: nat)
    requires Bounded(o, used, len, depth) && !r.Ok?
    ensures Bounded(r, used, len, depth)
  {
  }

  lemma EntryBounded(k: Outcome<Value>, used: int, v: Outcome<Value>, more: int, len: nat, depth: nat)
    requires k.Ok? && k.n <= len
    requires Bounded(k, used, len, depth) && Bounded(v, more, len - k.n, depth)
    ensures Bounded(EntryOf(k.val, k.n, v), used + more, len, depth)
    ensures EntryOf(k.val, k.n, v).Ok? ==> used + more + 2 <= EntryOf(k.val, k.n, v).n
  {
    Total(depth, k.n, len, used, more);
  }

  /** An entry takes two of the bytes that pay for the slots. */
  lemma OneMoreEntry(o: Outcome<Entry>, more: int, len: nat, used: int, n: int, depth: nat)
    requires o.Ok? && Bounded(o, more, len, depth) && Prior(used, n, depth) && more + 2 <= o.n
    ensures Prior(used + more, n + o.n - 2, depth) && o.n >= 2
  {
  }

  /** A list that passed its pre-check has no more elements than there are bytes. */
  lemma ListRoom(et: Type, l: nat, remain: nat)
    requires l <= Room(remain, MinWireSize(WireType(et)))
    ensures l <= remain
  {
    hide MinWireSize, WireType;
    QuotientBound(remain, MinWireSize(WireType(et)), 1);
  }

  /** A map that passed its pre-check has no more keys and values than there are bytes. */
  lemma MapRoom(kt: Type, vt: Type, l: nat, remain: nat)
    requires l <= Room(remain, MinWireSize(WireType(kt)) + MinWireSize(WireType(vt)))
    ensures 2 * l <= remain
  {
    DepthBudget.WireTypeHasSize(kt);
    DepthBudget.WireTypeHasSize(vt);
    hide MinWireSize, WireType;
    QuotientBound(remain, MinWireSize(WireType(kt)) + MinWireSize(WireType(vt)), 2);
  }

  lemma QuotientBound(x: nat, m: nat, k: nat)
    requires k == 1 || k == 2
    ensures m >= k ==> k * (x / m) <= x
  {
    if m >= k {
      var q := x / m;
      assert x >= q * m;
      assert q * m >= q * k;
    }
  }

  class TDecoder {
    /** The number of map entries and list elements that memory was allocated for. */
    ghost var slots: nat

    constructor () {
      slots := 0;
    }

    /** Memory for `n` list elements. */
    method MakeSlots(n: nat) returns (x: array<Value>)
      modifies this
      ensures fresh(x) && x.Length == n && slots == old(slots) + n
    {
      x := new Value[n];
      slots := slots + n;
    }

    /** A map with room for the keys and values of `n` entries. */
    method MakeEntries(n: nat) returns (m: seq<Entry>)
      modifies this
      ensures m == [] && slots == old(slots) + 2 * n
    {
      m := [];
      slots := slots + 2 * n;
    }

    method DecodeElem(S: Schema, t: Type, b: seq<Byte>, maxdepth: nat) returns (r: Outcome<Value>)
      modifies this
      ensures r == Decoding.DecodeElem(S, t, b, maxdepth)
      ensures Bounded(r, slots - old(slots), |b|, maxdepth)
      decreases maxdepth, 2, t
    {
      hide Decoding.DecodeType, Built;
      if FixedSize(t) > 0 {
        r := DecodeFixed(t, b);
      } else {
        r := DecodeType(S, t, b, maxdepth);
      }
    }

    method DecodeType(S: Schema, t: Type, b: seq<Byte>, maxdepth: nat) returns (r: Outcome<Value>)
      modifies this
      ensures r == Decoding.DecodeType(S, t, b, maxdepth)
      ensures Bounded(r, slots - old(slots), |b|, maxdepth)
      decreases maxdepth, 1, t
    {
      hide Decoding.DecodeType, Decoding.DecodeMap, Decoding.DecodeList, DecodeStruct, Bounded, Built;
      UnfoldType(S, t, b, maxdepth);
      if maxdepth == 0 {
        r := Err(0, DepthLimit);
        NothingAsked(r, |b|, maxdepth);
        return;
      }
      if FixedSize(t) > 0 {
        r := DecodeFixed(t, b);
        NothingAsked(r, |b|, maxdepth);
        return;
      }
      match t
      case TPtr(e) => r := DecodeType(S, e, b, maxdepth);
      case TString => r := DecodeString(b); NothingAsked(r, |b|, maxdepth);
      case TBinary => r := DecodeString(b); NothingAsked(r, |b|, maxdepth);
      case TMap(kt, vt) => r := DecodeMap(S, kt, vt, b, maxdepth);
      case TSet(et) => r := DecodeList(S, et, b, maxdepth);
      case TList(et) => r := DecodeList(S, et, b, maxdepth);
      case TStruct(name) =>
        if name !in S {
          r := Panic;
          NothingAsked(r, |b|, maxdepth);
          return;
        }
        r := DecodeNested(S, S[name], b, maxdepth - 1);
    }

    /** A struct behind a pointer, into a new object. */
    method DecodeNested(S: Schema, sd: StructDesc, b: seq<Byte>, maxdepth: nat) returns (r: Outcome<Value>)
      modifies this
      ensures r == DecodeStruct(S, sd, b, Fresh(sd), maxdepth)
      ensures Bounded(r, slots - old(slots), |b|, maxdepth + 1)
      decreases maxdepth, 7
    {
      hide DecodeStruct, Bounded;
      var p := new Object(sd.init);
      var o := Decode(S, sd, b, p, maxdepth);
      r := Loaded(o, p.Content());
      OneLevelUp(o, slots - old(slots), r, |b|, maxdepth);
    }

    method DecodeList(S: Schema, et: Type, b: seq<Byte>, maxdepth: nat) returns (r: Outcome<Value>)
      requires maxdepth > 0
      modifies this
      ensures r == Decoding.DecodeList(S, et, b, maxdepth)
      ensures Bounded(r, slots - old(slots), |b|, maxdepth)
      decreases maxdepth, 0
    {
      hide Get32, Room, MinWireSize, WireType, DecodeElems, Prior, Built;
      if |b| < 5 {
        return Err(0, ShortBuffer);
      }
      var tp, l := b[0], Get32(b[1..]);
      if l >= TWO_31 {
        return Err(0, NegativeSize);
      }
      if tp != WireType(et) {
        return Err(0, TypeMismatch);
      }
      if l == 0 {
        return Ok(List([]), 5);
      }
      if l > Room(|b| - 5, MinWireSize(WireType(et))) {
        return Err(5, SizeExceedsBuffer);
      }
      ListRoom(et, l, |b| - 5);
      r := FillList(S, et, b, l, maxdepth - 1);
    }

    /** `l` elements behind the header of a list, into memory allocated for them. */
    method FillList(S: Schema, et: Type, b: seq<Byte>, l: nat, maxdepth: nat) returns (r: Outcome<Value>)
      requires 5 + l <= |b|
      modifies this
      ensures r == DecodeElems(S, et, b, 5, l, [], maxdepth)
      ensures Bounded(r, slots - old(slots), |b|, maxdepth + 1)
      decreases maxdepth, 3
    {
      hide DecodeElems, Decoding.DecodeElem, Bounded, Prior, Built;
      var x := MakeSlots(l);
      var i, j := 5, 0;
      NothingYet(maxdepth);
      assert x[..0] == [];
      while j < l
        invariant 0 <= j <= l && 5 + j <= i <= |b|
        invariant slots >= old(slots) + l && Prior(slots - old(slots) - l, i - 5 - j, maxdepth)
        invariant DecodeElems(S, et, b, 5, l, [], maxdepth) == DecodeElems(S, et, b, i, l - j, x[..j], maxdepth)
      {
        ghost var used, before := slots - old(slots) - l, slots;
        UnfoldElems(S, et, b, i, l - j, x[..j], maxdepth);
        var o := DecodeElem(S, et, b[i..], maxdepth);
        if !o.Ok? {
          r := if o.Panic? then Panic else Err(i, o.kind);
          PartFails(o, slots - before, r, maxdepth, l, i - 5 - j, i, |b|, used);
          return;
        }
        OneMorePart(o, slots - before, |b| - i, used, i - 5 - j, maxdepth);
        x[j] := o.val;
        assert x[..j + 1] == x[..j] + [o.val];
        i, j := i + o.n, j + 1;
      }
      assert x[..j] == x[..];
      UnfoldElems(S, et, b, i, 0, x[..], maxdepth);
      r := Ok(List(x[..]), i);
      AllPartsDone(r, maxdepth, l, i - 5 - j, |b|, slots - old(slots) - l);
    }

    method DecodeMap(S: Schema, kt: Type, vt: Type, b: seq<Byte>, maxdepth: nat) returns (r: Outcome<Value>)
      requires maxdepth > 0
      modifies this
      ensures r == Decoding.DecodeMap(S, kt, vt, b, maxdepth)
      ensures Bounded(r, slots - old(slots), |b|, maxdepth)
      decreases maxdepth, 0
    {
      hide Get32, Room, MinWireSize, WireType, DecodeEntries, Prior, Built;
      if |b| < 6 {
        return Err(0, ShortBuffer);
      }
      var t0, t1, l := b[0], b[1], Get32(b[2..]);
      if l >= TWO_31 {
        return Err(0, NegativeSize);
      }
      if t0 != WireType(kt) || t1 != WireType(vt) {
        return Err(0, TypeMismatch);
      }
      if l > Room(|b| - 6, MinWireSize(WireType(kt)) + MinWireSize(WireType(vt))) {
        return Err(6, SizeExceedsBuffer);
      }
      MapRoom(kt, vt, l, |b| - 6);
      r := FillMap(S, kt, vt, b, l, maxdepth - 1);
    }

    /** `l` entries behind the header of a map, put into a new map one by one. */
    method FillMap(S: Schema, kt: Type, vt: Type, b: seq<Byte>, l: nat, maxdepth: nat) returns (r: Outcome<Value>)
      requires 6 + 2 * l <= |b|
      modifies this
      ensures r == DecodeEntries(S, kt, vt, b, 6, l, [], maxdepth)
      ensures Bounded(r, slots - old(slots), |b|, maxdepth + 1)
      decreases maxdepth, 4
    {
      hide MapPut, DecodeEntries, Decoding.DecodeEntry, Bounded, Prior, Built;
      var m := MakeEntries(l);
      var i, j := 6, 0;
      NothingYet(maxdepth);
      while j < l
        invariant 0 <= j <= l && 6 + 2 * j <= i <= |b|
        invariant slots >= old(slots) + 2 * l && Prior(slots - old(slots) - 2 * l, i - 6 - 2 * j, maxdepth)
        invariant DecodeEntries(S, kt, vt, b, 6, l, [], maxdepth) == DecodeEntries(S, kt, vt, b, i, l - j, m, maxdepth)
      {
        ghost var used, before := slots - old(slots) - 2 * l, slots;
        UnfoldEntries(S, kt, vt, b, i, l - j, m, maxdepth);
        var o := DecodeEntry(S, kt, vt, b[i..], maxdepth);
        if !o.Ok? {
          r := if o.Panic? then Panic else Err(i + o.at, o.kind);
          PartFails(o, slots - before, r, maxdepth, 2 * l, i - 6 - 2 * j, i, |b|, used);
          return;
        }
        OneMoreEntry(o, slots - before, |b| - i, used, i - 6 - 2 * j, maxdepth);
        m := MapPut(kt, m, o.val);
        i, j := i + o.n, j + 1;
      }
      UnfoldEntries(S, kt, vt, b, i, 0, m, maxdepth);
      r := Ok(Map(m), i);
      AllPartsDone(r, maxdepth, 2 * l, i - 6 - 2 * j, |b|, slots - old(slots) - 2 * l);
    }

    /** A key and the value behind it. */
    method DecodeEntry(S: Schema, kt: Type, vt: Type, b: seq<Byte>, maxdepth: nat) returns (r: Outcome<Entry>)
      modifies this
      ensures r == Decoding.DecodeEntry(S, kt, vt, b, maxdepth)
      ensures Bounded(r, slots - old(slots), |b|, maxdepth)
      ensures r.Ok? ==> slots - old(slots) + 2 <= r.n
      decreases maxdepth, 3
    {
      hide Decoding.DecodeEntry, Decoding.DecodeElem, EntryOf, Bounded, Built;
      UnfoldEntry(S, kt, vt, b, maxdepth);
      var k := DecodeElem(S, kt, b, maxdepth);
      ghost var before := slots;
      if k.Ok? {
        var v := DecodeElem(S, vt, b[k.n..], maxdepth);
        r := EntryOf(k.val, k.n, v);
        EntryBounded(k, before - old(slots), v, slots - before, |b|, maxdepth);
      } else {
        r := if k.Panic? then Panic else Err(0, k.kind);
        ItFails(k, before - old(slots), r, |b|, maxdepth);
      }
    }

    /** The value of a field; nocopy strings are taken straight from the buffer. */
    method DecodeFieldValue(S: Schema, f: Field, b: seq<Byte>, maxdepth: nat) returns (r: Outcome<Value>)
      modifies this
      ensures r == Decoding.DecodeFieldValue(S, f, b, maxdepth)
      ensures Bounded(r, slots - old(slots), |b|, maxdepth)
      decreases maxdepth, 3
    {
      hide Decoding.DecodeElem, Built;
      if FixedSize(f.typ) == 0 && f.noCopy {
        r := DecodeString(b);
      } else {
        r := DecodeElem(S, f.typ, b, maxdepth);
      }
    }

    /** A field of the struct, behind its header. */
    method StoreField(S: Schema, sd: StructDesc, k: nat, b: seq<Byte>, base: Object, bs: Bitset?, maxdepth: nat)
      returns (r: Outcome<()>)
      requires base.fields.Length == |sd.fields| && k < |sd.fields|
      requires bs != null ==> bs.Valid() && bs.data as object != base.fields
      modifies this, base.fields, Pooled(bs, null)
      ensures var o := Decoding.DecodeFieldValue(S, sd.fields[k], b, maxdepth);
        && r == (if o.Ok? then Ok((), 3 + o.n) else if o.Err? then Err(3, o.kind) else Panic)
        && (o.Ok? ==> base.fields[..] == old(base.fields[..])[k := o.val])
      ensures r.Ok? && bs != null ==>
        forall id :: 0 <= id < 0x1_0000 ==> (bs.Has(id) <==> id == sd.fields[k].id || old(bs.Has(id)))
      ensures Bounded(r, slots - old(slots), |b| + 3, maxdepth)
      decreases maxdepth, 4
    {
      hide Decoding.DecodeFieldValue, Bounded;
      var o := DecodeFieldValue(S, sd.fields[k], b, maxdepth);
      r := if o.Ok? then Ok((), 3 + o.n) else if o.Err? then Err(3, o.kind) else Panic;
      BehindHeader(o, slots - old(slots), r, |b|, maxdepth);
      if o.Ok? {
        base.fields[k] := o.val;
        if bs != null {
          bs.Set(sd.fields[k].id);
        }
      }
    }

    /** One turn of the loop of Decode, from offset `i` on. */
    method DecodeField(S: Schema, sd: StructDesc, b: seq<Byte>, i: nat,
                       base: Object, bs: Bitset?, ufs: UnknownFields?, ghost p: Partial, maxdepth: nat)
      returns (r: Outcome<()>, ghost q: Partial)
      requires i <= |b| && Tracks(sd, b, base, bs, ufs, p)
      modifies this, base.fields, Pooled(bs, ufs)
      ensures var o := Decoding.DecodeField(S, sd, b[i..], p, maxdepth);
        && Follows(r, q, o)
        && (r.Ok? ==> Tracks(sd, b, base, bs, ufs, q))
      ensures Bounded(r, slots - old(slots), |b| - i, maxdepth)
      decreases maxdepth, 5
    {
      hide Get16, SkipValue, KnownField, Decoding.DecodeField, Decoding.DecodeFieldValue, Bounded, Pieces, Within;
      hide Built;
      UnfoldField(S, sd, b[i..], p, maxdepth);
      q := p;
      if |b| - i < 3 {
        NothingAsked<()>(Panic, |b| - i, maxdepth);
        return Panic, q;
      }
      assert b[i..][1..] == b[i + 1..] && b[i..][3..] == b[i + 3..];
      var tp, fid := b[i], Get16(b[i + 1..]);
      var f := KnownField(sd, tp, fid);
      match f
      case None =>
        var n := SkipValue(tp, b[i + 3..]);
        r := if n.None? then Err(3, SkipFailed) else Ok((), 3 + n.value);
        NothingAsked(r, |b| - i, maxdepth);
        if n.Some? && ufs != null {
          NoteOne(b, ufs.offs, i, 3 + n.value);
          ufs.Add(i, 3 + n.value);
          q := p.(unknown := p.unknown + b[i..][..3 + n.value]);
        }
      case Some(k) =>
        ghost var o := Decoding.DecodeFieldValue(S, sd.fields[k], b[i + 3..], maxdepth);
        r := StoreField(S, sd, k, b[i + 3..], base, bs, maxdepth);
        if o.Ok? {
          q := p.(fields := p.fields[k := o.val], seen := p.seen + {sd.fields[k].id});
        }
    }

    /** A bitset from the pool in which no required field is marked, whatever its last user left. */
    method ClearedBitset(sd: StructDesc) returns (bs: Bitset)
      ensures fresh(bs) && fresh(bs.data) && Marked(bs, sd.required, {})
    {
      bs := new Bitset();
      var k := 0;
      while k < |sd.required|
        invariant 0 <= k <= |sd.required|
        invariant Marked(bs, sd.required[..k], {})
      {
        RequiredBelow(sd, k);
        bs.Unset(sd.required[k]);
        k := k + 1;
      }
      assert sd.required[..k] == sd.required;
    }

    /** The loop of Decode: the fields of the message, up to and including its end. */
    method DecodeFields(S: Schema, sd: StructDesc, b: seq<Byte>,
                        base: Object, bs: Bitset?, ufs: UnknownFields?, ghost p: Partial, maxdepth: nat)
      returns (r: Outcome<()>, ghost q: Partial)
      requires Tracks(sd, b, base, bs, ufs, p)
      requires |p.fields| == |sd.fields|
      modifies this, base.fields, Pooled(bs, ufs)
      ensures Follows(r, q, Decoding.DecodeFields(S, sd, b, 0, p, maxdepth))
      ensures r.Ok? ==> Tracks(sd, b, base, bs, ufs, q)
      ensures Bounded(r, slots - old(slots), |b|, maxdepth + 1)
      decreases maxdepth, 6
    {
      hide Decoding.DecodeFields, Decoding.DecodeField, Bounded, Prior, Tracks, Pooled, Built;
      NothingYet(maxdepth);
      var i := 0;
      q := p;
      while i < |b| && b[i] != STOP
        invariant i <= |b| && |q.fields| == |sd.fields|
        invariant Tracks(sd, b, base, bs, ufs, q)
        invariant slots >= old(slots) && Prior(slots - old(slots), i, maxdepth)
        invariant Decoding.DecodeFields(S, sd, b, i, q, maxdepth) == Decoding.DecodeFields(S, sd, b, 0, p, maxdepth)
        decreases |b| - i
      {
        ghost var used, before := slots - old(slots), slots;
        UnfoldFields(S, sd, b, i, q, maxdepth);
        r, q := DecodeField(S, sd, b, i, base, bs, ufs, q, maxdepth);
        if !r.Ok? {
          ghost var o := r;
          r := if r.Panic? then Panic else Err(i + r.at, r.kind);
          PartFails(o, slots - before, r, maxdepth, 0, i, i, |b|, used);
          return;
        }
        OneMorePart(r, slots - before, |b| - i, used, i, maxdepth);
        i := i + r.n;
      }
      UnfoldFields(S, sd, b, i, q, maxdepth);
      if i == |b| {
        r := Panic;
        LateFailure(r, maxdepth, i, |b|, slots - old(slots));
      } else {
        r := Ok((), i + 1);
        AllPartsDone(r, maxdepth, 0, i, |b|, slots - old(slots));
      }
    }

    /** The fields of the message overwrite those of `base`. */
    method Decode(S: Schema, sd: StructDesc, b: seq<Byte>, base: Object, maxdepth: nat) returns (r: Outcome<()>)
      requires base.fields.Length == |sd.fields|
      modifies this, base, base.fields
      ensures Loaded(r, base.Content()) == DecodeStruct(S, sd, b, old(base.Content()), maxdepth)
      ensures Bounded(r, slots - old(slots), |b|, maxdepth)
      decreases maxdepth, 0
    {
      hide DecodeStruct, Decoding.DecodeFields, Bounded, Tracks, Marked, Complete, Built;
      UnfoldStruct(S, sd, b, base.Content(), maxdepth);
      if maxdepth == 0 {
        r := Err(0, DepthLimit);
        NothingAsked(r, |b|, 0);
        return;
      }
      var bs: Bitset? := null;
      if |sd.required| > 0 {
        bs := ClearedBitset(sd);
      }
      var ufs: UnknownFields? := null;
      if sd.hasUnknown {
        ufs := new UnknownFields();
        ufs.Reset();
      }
      ghost var p := Partial(base.fields[..], [], {});
      StartTracking(sd, b, base, bs, ufs, p);
      var o;
      o, p := DecodeFields(S, sd, b, base, bs, ufs, p, maxdepth - 1);
      r := o;
      if o.Ok? {
        r := Conclude(sd, b, o.n, base, bs, ufs, p);
      }
      SameEnd(o, slots - old(slots), r, |b|, maxdepth);
    }

    /** What Decode does behind its loop, at offset `i`. */
    method Conclude(sd: StructDesc, b: seq<Byte>, i: nat, base: Object, bs: Bitset?, ufs: UnknownFields?,
                    ghost p: Partial)
      returns (r: Outcome<()>)
      requires Tracks(sd, b, base, bs, ufs, p)
      modifies base
      ensures if Complete(sd, p) then r == Ok((), i) && base.Content() == Finish(p, old(base.Content()))
        else r == Err(i, RequiredNotSet)
    {
      hide Tracks, Complete, Built;
      var complete := TestRequired(sd, b, base, bs, ufs, p);
      if !complete {
        return Err(i, RequiredNotSet);
      }
      KeepUnknown(sd, b, base, bs, ufs, p);
      return Ok((), i);
    }

    /** Every required field has been marked. */
    method TestRequired(sd: StructDesc, b: seq<Byte>, base: Object, bs: Bitset?, ufs: UnknownFields?, ghost p: Partial)
      returns (ok: bool)
      requires Tracks(sd, b, base, bs, ufs, p)
      ensures ok <==> Complete(sd, p)
      ensures Tracks(sd, b, base, bs, ufs, p)
    {
      hide Built;
      var k := 0;
      while k < |sd.required|
        invariant 0 <= k <= |sd.required|
        invariant forall j :: 0 <= j < k ==> sd.required[j] in p.seen
      {
        var marked := bs.Test(sd.required[k]);
        if !marked {
          return false;
        }
        k := k + 1;
      }
      return true;
    }

    /** The unknown fields, if there were any, replace those of the object. */
    method KeepUnknown(sd: StructDesc, b: seq<Byte>, base: Object, bs: Bitset?, ufs: UnknownFields?, ghost p: Partial)
      requires Tracks(sd, b, base, bs, ufs, p)
      modifies base
      ensures base.Content() == Finish(p, old(base.Content()))
    {
      hide Pieces, Within, TotalSize, Built;
      if ufs != null {
        PiecesLength(b, ufs.offs);
        if ufs.sz > 0 {
          var data := ufs.Copy(b);
          base.unknown := data[..];
        }
      }
    }
  }
}
