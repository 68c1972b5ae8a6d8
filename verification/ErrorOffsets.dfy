/**
  Where and why decoding fails (internal/reflect/decoder.go). The offset that is returned with
  an error is that of the value that could not be decoded: everything in front of it is whole.
 */
module ErrorOffsets {
  import opened Common
  import opened BigEndian
  import opened Schema
  import opened Skip
  import opened Reference
  import opened Decoding
  import opened DepthBudget
  import opened SelfDelimiting

  // ----- Sizes, byte by byte

  /** The size field at the start of `b`, most significant byte first. */
  function SizeAt(b: seq<Byte>): nat
    requires |b| >= 4
  {
    var b0: nat, b1: nat, b2: nat, b3: nat := b[0], b[1], b[2], b[3];
    ((b0 * 256 + b1) * 256 + b2) * 256 + b3
  }

  /** A size is negative if its first bit is set. */
  predicate Negative(b: seq<Byte>)
    requires |b| >= 4
  {
    b[0] >= 128
  }

  lemma SizeIs(b: seq<Byte>)
    requires |b| >= 4
    ensures Get32(b) == SizeAt(b) && (Get32(b) >= TWO_31 <==> Negative(b))
  {
  }

  // ----- Strings

  /** Each outcome of a string, by the bytes of its size and the length of the buffer. */
  lemma StringOutcome(b: seq<Byte>)
    ensures DecodeString(b) ==
      if |b| < 4 then Err(0, ShortBuffer)
      else if Negative(b) then Err(0, NegativeSize)
      else if 4 + SizeAt(b) > |b| then Err(4, SizeExceedsBuffer)
      else Ok(Bytes(b[4..4 + SizeAt(b)]), 4 + SizeAt(b))
  {
    hide Get32, SizeAt, Negative;
    if |b| >= 4 {
      SizeIs(b);
      assert b[4..4] == [];
    }
  }

  // ----- Lists

  /** After `k` elements, at `at`, the next one fails with `kind`. */
  ghost predicate ElemFails(S: Schema, et: Type, b: seq<Byte>, i: nat, k: nat, at: nat, kind: ErrorKind, depth: nat) {
    && i <= at <= |b| && SkipElems(WireType(et), b[i..], k) == Some(at - i)
    && var o := DecodeElem(S, et, b[at..], depth); o.Err? && o.kind == kind
  }

  ghost predicate SomeElemFails(S: Schema, et: Type, b: seq<Byte>, i: nat, l: nat, at: nat, kind: ErrorKind,
                                depth: nat)
  {
    exists k: nat :: k < l && ElemFails(S, et, b, i, k, at, kind, depth)
  }

  /** One whole element more in front. */
  lemma ElemFailsLater(S: Schema, et: Type, b: seq<Byte>, i: nat, n: nat, k: nat, at: nat, kind: ErrorKind, depth: nat)
    requires i + n <= |b| && SkipValue(WireType(et), b[i..]) == Some(n)
    requires ElemFails(S, et, b, i + n, k, at, kind, depth)
    ensures ElemFails(S, et, b, i, k + 1, at, kind, depth)
  {
    hide DecodeElem, SkipValue;
    DropDrop(b, i, n);
  }

  lemma ElemLength(S: Schema, t: Type, b: seq<Byte>, depth: nat)
    requires DecodeElem(S, t, b, depth).Ok?
    ensures SkipValue(WireType(t), b) == Some(DecodeElem(S, t, b, depth).n)
  {
    hide DecodeElem, SkipValue, ReadValue, Built;
    ElemMeets(S, t, b, depth);
    ReadValueSkips(S, t, b);
  }

  lemma {:induction false} ElemsError(S: Schema, et: Type, b: seq<Byte>, i: nat, l: nat, acc: seq<Value>, depth: nat)
    returns (k: nat)
    requires i <= |b| && DecodeElems(S, et, b, i, l, acc, depth).Err?
    ensures var e := DecodeElems(S, et, b, i, l, acc, depth); k < l && ElemFails(S, et, b, i, k, e.at, e.kind, depth)
    decreases l
  {
    hide DecodeElems, DecodeElem, SkipValue, Built;
    UnfoldElems(S, et, b, i, l, acc, depth);
    var e := DecodeElems(S, et, b, i, l, acc, depth);
    var o := DecodeElem(S, et, b[i..], depth);
    if o.Ok? {
      var j := ElemsError(S, et, b, i + o.n, l - 1, acc + [o.val], depth);
      hide ElemFails;
      ElemLength(S, et, b[i..], depth);
      ElemFailsLater(S, et, b, i, o.n, j, e.at, e.kind, depth);
      k := j + 1;
    } else {
      k := 0;
    }
  }

  /**
    The outcome of a list or set that is not accepted: its header, in the order of the checks,
    or the element that fails behind whole ones.
   */
  lemma ListOutcome(S: Schema, et: Type, b: seq<Byte>, depth: nat)
    requires depth > 0
    ensures var o := DecodeList(S, et, b, depth);
      && (|b| < 5 ==> o == Err(0, ShortBuffer))
      && (|b| >= 5 && Negative(b[1..]) ==> o == Err(0, NegativeSize))
      && (|b| >= 5 && !Negative(b[1..]) && b[0] != WireType(et) ==> o == Err(0, TypeMismatch))
      && (|b| >= 5 && SizeAt(b[1..]) == 0 && b[0] == WireType(et) ==> o == Ok(List([]), 5))
      && (o.Err? ==>
            || (o.at == 0 && o.kind in {ShortBuffer, NegativeSize, TypeMismatch})
            || (o.at == 5 && o.kind == SizeExceedsBuffer)
            || SomeElemFails(S, et, b, 5, SizeAt(b[1..]), o.at, o.kind, depth - 1))
  {
    hide DecodeElems, ElemFails, Room, MinWireSize, WireType, Get32, Built;
    if |b| >= 5 {
      SizeIs(b[1..]);
      if DecodeElems(S, et, b, 5, Get32(b[1..]), [], depth - 1).Err? {
        var k := ElemsError(S, et, b, 5, Get32(b[1..]), [], depth - 1);
      }
    }
  }

  // ----- Maps

  /** The key at `i` fails, and `at` is `i`; or the value at `at` does, behind a whole key. */
  ghost predicate PartFails(S: Schema, kt: Type, vt: Type, b: seq<Byte>, i: nat, at: nat, kind: ErrorKind, depth: nat) {
    && i <= at <= |b|
    && var key := DecodeElem(S, kt, b[i..], depth);
       if key.Ok? then
         SkipValue(WireType(kt), b[i..]) == Some(at - i) &&
         var val := DecodeElem(S, vt, b[at..], depth);
         val.Err? && val.kind == kind
       else at == i && key.Err? && key.kind == kind
  }

  /** After `k` entries, a key or value fails. */
  ghost predicate EntryFails(S: Schema, kt: Type, vt: Type, b: seq<Byte>, i: nat, k: nat, at: nat, kind: ErrorKind,
                             depth: nat)
    requires i <= |b|
  {
    var m := SkipPairs(WireType(kt), WireType(vt), b[i..], k);
    m.Some? && PartFails(S, kt, vt, b, i + m.value, at, kind, depth)
  }

  ghost predicate SomeEntryFails(S: Schema, kt: Type, vt: Type, b: seq<Byte>, i: nat, l: nat, at: nat,
                                 kind: ErrorKind, depth: nat)
    requires i <= |b|
  {
    exists k: nat :: k < l && EntryFails(S, kt, vt, b, i, k, at, kind, depth)
  }

  lemma EntryFailsLater(S: Schema, kt: Type, vt: Type, b: seq<Byte>, i: nat, n: nat, k: nat, at: nat,
                        kind: ErrorKind, depth: nat)
    requires i + n <= |b| && SkipPair(WireType(kt), WireType(vt), b[i..]) == Some(n)
    requires EntryFails(S, kt, vt, b, i + n, k, at, kind, depth)
    ensures EntryFails(S, kt, vt, b, i, k + 1, at, kind, depth)
  {
    hide SkipPair, PartFails;
    DropDrop(b, i, n);
  }

  lemma EntryError(S: Schema, kt: Type, vt: Type, b: seq<Byte>, i: nat, depth: nat)
    requires i <= |b| && DecodeEntry(S, kt, vt, b[i..], depth).Err?
    ensures var e := DecodeEntry(S, kt, vt, b[i..], depth);
      PartFails(S, kt, vt, b, i, i + e.at, e.kind, depth)
  {
    hide DecodeEntry, DecodeElem, SkipValue, Built;
    UnfoldEntry(S, kt, vt, b[i..], depth);
    var o := DecodeElem(S, kt, b[i..], depth);
    if o.Ok? {
      ElemLength(S, kt, b[i..], depth);
      DropDrop(b, i, o.n);
    }
  }

  lemma {:induction false} EntriesError(S: Schema, kt: Type, vt: Type, b: seq<Byte>, i: nat, l: nat, es: seq<Entry>,
                                        depth: nat)
    returns (k: nat)
    requires i <= |b| && DecodeEntries(S, kt, vt, b, i, l, es, depth).Err?
    ensures var e := DecodeEntries(S, kt, vt, b, i, l, es, depth);
      k < l && EntryFails(S, kt, vt, b, i, k, e.at, e.kind, depth)
    decreases l
  {
    hide DecodeEntries, DecodeEntry, SkipPair, MapPut, PartFails, Built;
    UnfoldEntries(S, kt, vt, b, i, l, es, depth);
    var e := DecodeEntries(S, kt, vt, b, i, l, es, depth);
    var o := DecodeEntry(S, kt, vt, b[i..], depth);
    if o.Ok? {
      var j := EntriesError(S, kt, vt, b, i + o.n, l - 1, MapPut(kt, es, o.val), depth);
      hide EntryFails;
      EntryLength(S, kt, vt, b[i..], depth);
      EntryFailsLater(S, kt, vt, b, i, o.n, j, e.at, e.kind, depth);
      k := j + 1;
    } else {
      k := 0;
      EntryError(S, kt, vt, b, i, depth);
    }
  }

  lemma EntryLength(S: Schema, kt: Type, vt: Type, b: seq<Byte>, depth: nat)
    requires DecodeEntry(S, kt, vt, b, depth).Ok?
    ensures SkipPair(WireType(kt), WireType(vt), b) == Some(DecodeEntry(S, kt, vt, b, depth).n)
  {
    hide DecodeEntry, SkipPair, ReadEntry, Built;
    EntryMeets(S, kt, vt, b, depth);
    ReadEntrySkips(S, kt, vt, b);
  }

  lemma MapOutcome(S: Schema, kt: Type, vt: Type, b: seq<Byte>, depth: nat)
    requires depth > 0
    ensures var o := DecodeMap(S, kt, vt, b, depth);
      && (|b| < 6 ==> o == Err(0, ShortBuffer))
      && (|b| >= 6 && Negative(b[2..]) ==> o == Err(0, NegativeSize))
      && (|b| >= 6 && !Negative(b[2..]) && (b[0] != WireType(kt) || b[1] != WireType(vt)) ==> o == Err(0, TypeMismatch))
      && (o.Err? ==>
            || (o.at == 0 && o.kind in {ShortBuffer, NegativeSize, TypeMismatch})
            || (o.at == 6 && o.kind == SizeExceedsBuffer)
            || SomeEntryFails(S, kt, vt, b, 6, SizeAt(b[2..]), o.at, o.kind, depth - 1))
  {
    hide DecodeEntries, SkipPairs, Room, MinWireSize, WireType, Get32, EntryFails, Built;
    if |b| >= 6 {
      SizeIs(b[2..]);
      if DecodeEntries(S, kt, vt, b, 6, Get32(b[2..]), [], depth - 1).Err? {
        var k := EntriesError(S, kt, vt, b, 6, Get32(b[2..]), [], depth - 1);
      }
    }
  }

  // ----- Structs

  /** Where the first `k` fields of a struct end. */
  function Walk(b: seq<Byte>, k: nat): (r: Option<nat>)
    ensures r.Some? ==> r.value <= |b|
    decreases k
  {
    if k == 0 then Some(0)
    else if |b| < 3 || b[0] == STOP || SkipValue(b[0], b[3..]).None? then None
    else Plus(3 + SkipValue(b[0], b[3..]).value, Walk(b[3 + SkipValue(b[0], b[3..]).value..], k - 1))
  }

  /** The value of the field whose header stands in front of `at` fails with `kind`. */
  ghost predicate ValueFails(S: Schema, sd: StructDesc, b: seq<Byte>, at: nat, kind: ErrorKind, depth: nat)
    requires 3 <= at <= |b|
  {
    var hi: nat, lo: nat := b[at - 2], b[at - 1];
    var k := KnownField(sd, b[at - 3], hi * 256 + lo);
    if k.None? then kind == SkipFailed && SkipValue(b[at - 3], b[at..]).None?
    else
      var o := DecodeFieldValue(S, sd.fields[k.value], b[at..], depth);
      o.Err? && o.kind == kind
  }

  ghost predicate FieldFails(S: Schema, sd: StructDesc, b: seq<Byte>, k: nat, at: nat, kind: ErrorKind, depth: nat) {
    && 3 <= at <= |b| && Walk(b, k) == Some(at - 3) && b[at - 3] != STOP
    && ValueFails(S, sd, b, at, kind, depth)
  }

  ghost predicate SomeFieldFails(S: Schema, sd: StructDesc, b: seq<Byte>, at: nat, kind: ErrorKind, depth: nat) {
    exists k: nat :: FieldFails(S, sd, b, k, at, kind, depth)
  }

  lemma FieldError(S: Schema, sd: StructDesc, b: seq<Byte>, p: Partial, depth: nat)
    requires |p.fields| == |sd.fields| && b != [] && DecodeField(S, sd, b, p, depth).Err?
    ensures var e := DecodeField(S, sd, b, p, depth);
      e.at == 3 <= |b| && ValueFails(S, sd, b, 3, e.kind, depth)
  {
    hide DecodeField, DecodeFieldValue, SkipValue, KnownField, Built;
    UnfoldField(S, sd, b, p, depth);
  }

  lemma ValueFailsBehind(S: Schema, sd: StructDesc, b: seq<Byte>, i: nat, at: nat, kind: ErrorKind, depth: nat)
    requires i <= |b| && 3 <= at <= |b| - i && ValueFails(S, sd, b[i..], at, kind, depth)
    ensures ValueFails(S, sd, b, i + at, kind, depth)
  {
    hide DecodeFieldValue, SkipValue, KnownField, Built;
    DropDrop(b, i, at);
  }

  lemma {:induction false} FieldsError(S: Schema, sd: StructDesc, b: seq<Byte>, i: nat, p: Partial, depth: nat)
    returns (k: nat)
    requires |p.fields| == |sd.fields| && i <= |b| && DecodeFields(S, sd, b, i, p, depth).Err?
    ensures var e := DecodeFields(S, sd, b, i, p, depth);
      i <= e.at && FieldFails(S, sd, b[i..], k, e.at - i, e.kind, depth)
    decreases |b| - i
  {
    hide DecodeFields, DecodeField, ReadField, SkipValue, ValueFails, Built;
    UnfoldFields(S, sd, b, i, p, depth);
    var o := DecodeField(S, sd, b[i..], p, depth);
    if o.Ok? {
      var j := FieldsError(S, sd, b, i + o.n, o.val, depth);
      var e := DecodeFields(S, sd, b, i, p, depth);
      FieldMeets(S, sd, b[i..], p, depth);
      ReadFieldSkips(S, sd, b[i..], p);
      DropDrop(b, i, o.n);
      ValueFailsBehind(S, sd, b[i..], o.n, e.at - i - o.n, e.kind, depth);
      k := j + 1;
    } else {
      FieldError(S, sd, b[i..], p, depth);
      k := 0;
    }
  }

  /**
    The outcome of a struct that is refused: the budget; the end of the message, if a required
    field is missing; or a field, behind whole ones, whose value fails.
   */
  lemma StructOutcome(S: Schema, sd: StructDesc, b: seq<Byte>, target: Value, depth: nat)
    requires target.Struct? && |target.fields| == |sd.fields| && DecodeStruct(S, sd, b, target, depth).Err?
    ensures var o := DecodeStruct(S, sd, b, target, depth);
      || (depth == 0 && o == Err(0, DepthLimit))
      || (depth > 0 && o.kind == RequiredNotSet && SkipFields(b) == Some(o.at))
      || (depth > 0 && SomeFieldFails(S, sd, b, o.at, o.kind, depth - 1))
  {
    hide DecodeStruct, DecodeFields, ReadFields, SkipFields, Complete, FieldFails, Built;
    UnfoldStruct(S, sd, b, target, depth);
    if depth > 0 {
      var p := Partial(target.fields, [], {});
      assert b[0..] == b;
      var o := DecodeFields(S, sd, b, 0, p, depth - 1);
      if o.Err? {
        var k := FieldsError(S, sd, b, 0, p, depth - 1);
      } else {
        FieldsMeets(S, sd, b, 0, p, depth - 1);
        ReadFieldsSkips(S, sd, b, p);
      }
    }
  }
}
