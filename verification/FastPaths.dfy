/**
  The specialised list and map writers (internal/reflect/append_list_fast.go,
  append_map_fast.go): which writer the registries hold for which types, and what each
  writes for one value. They write what the generic path writes, exactly as long as bools
  are 0 or 1 and the Go map type that a writer ranges over has the slots of the actual map.
 */
module FastPaths {
  import opened Common
  import opened BigEndian
  import opened Schema
  import opened Wire

  /** tType.T: the wire type, except that an enum is told apart and a pointer is looked through. */
  datatype Kind = BOOL | BYTE | DOUBLE | I16 | I32 | I64 | ENUM | STRING | STRUCT | MAP | SET | LIST

  function KindOf(t: Type): Kind {
    match t
    case TBool => BOOL
    case TByte => BYTE
    case TDouble => DOUBLE
    case TI16 => I16
    case TI32 => I32
    case TI64 => I64
    case TEnum => ENUM
    case TString => STRING
    case TBinary => STRING
    case TStruct(_) => STRUCT
    case TMap(_, _) => MAP
    case TSet(_) => SET
    case TList(_) => LIST
    case TPtr(e) => KindOf(e)
  }

  /** The part of a writer that handles one key, value or element. */
  datatype Writer =
    | WBool      // appendMapBool
    | WI08 | WI16 | WI32 | WI64
    | WEnum      // uint32 of an int64
    | WString
    | WOther     // AppendFunc of the type

  /** The suffix in the name of the appendMap_ function registered for a kind. */
  function ScalarWriter(k: Kind): Writer {
    match k
    case BOOL => WBool
    case BYTE => WI08
    case I16 => WI16
    case I32 => WI32
    case I64 => WI64
    case DOUBLE => WI64
    case ENUM => WEnum
    case STRING => WString
    case _ => WOther
  }

  /** Beside an Other, a bool is written as the byte it is. */
  function RawBool(w: Writer): Writer {
    if w == WBool then WI08 else w
  }

  /** mapAppendFuncs: every pair of kinds has a specialised writer. */
  function MapWriters(k: Kind, v: Kind): (Writer, Writer) {
    var kw, vw := ScalarWriter(k), ScalarWriter(v);
    if vw == WOther then (RawBool(kw), vw)
    else if kw == WOther then (kw, RawBool(vw))
    else (kw, vw)
  }

  /** listAppendFuncs: bools are missing and go through appendListAny. */
  function ListWriter(k: Kind): Option<Writer> {
    if k == BOOL then None else Some(ScalarWriter(k))
  }

  /** What a scalar writer appends for one value. */
  function ScalarBytes(w: Writer, v: Value): seq<Byte>
    requires w != WOther
  {
    var bits := if v.Fixed? then v.bits else 0;
    match w
    case WBool => [if bits != 0 then 1 else 0]
    case WI08 => [bits % 0x100]
    case WI16 => Put16(bits)
    case WI32 => Put32(bits)
    case WI64 => Put64(bits)
    case WEnum => Put32(bits)
    case WString => EncodeString(Content(v))
  }

  /** What one writer appends for the value `v` of type `t`. */
  function Written(S: Schema, w: Writer, t: Type, v: Value): seq<Byte> {
    if w == WOther then EncodeValue(S, t, v) else ScalarBytes(w, v)
  }

  lemma ScalarWriterWrites(S: Schema, t: Type, v: Value)
    requires ElemType(t)
    ensures Written(S, ScalarWriter(KindOf(t)), t, v) == EncodePart(S, t, v, true)
    ensures Written(S, RawBool(ScalarWriter(KindOf(t))), t, v) == EncodeValue(S, t, v)
  {
    hide Built, EncodeMap, EncodeList, EncodeStruct;
  }

  /** A writer of two plain types is in use. */
  lemma PlainKinds(t: Type)
    requires ElemType(t)
    ensures ScalarWriter(KindOf(t)) != WOther <==> Plain(t)
  {
  }

  /** Every registered map writer writes the keys and values of its encoding. */
  lemma MapWritersWrite(S: Schema, kt: Type, vt: Type, e: Entry)
    requires ElemType(TMap(kt, vt))
    ensures var w := MapWriters(KindOf(kt), KindOf(vt));
      Written(S, w.0, kt, e.key) + Written(S, w.1, vt, e.val) == EncodeEntry(S, kt, vt, e)
  {
    hide Built, Written, EncodePart;
    ScalarWriterWrites(S, kt, e.key);
    ScalarWriterWrites(S, vt, e.val);
    PlainKinds(kt);
    PlainKinds(vt);
    PartUnbranched(S, kt, e.key);
    PartUnbranched(S, vt, e.val);
  }

  lemma PartUnbranched(S: Schema, t: Type, v: Value)
    ensures EncodePart(S, t, v, false) == EncodeValue(S, t, v)
    ensures !Plain(t) ==> EncodePart(S, t, v, true) == EncodeValue(S, t, v)
  {
    hide EncodeValue;
  }

  /** A branch writes the byte in memory if and only if that byte is a bool of Go. */
  lemma PartIsGeneric(S: Schema, t: Type, v: Value, branch: bool)
    requires Typed(S, t, v)
    ensures EncodePart(S, t, v, branch) == EncodeValue(S, t, v) <==> GoBool(t, v, branch)
  {
    if !t.TBool? {
      hide EncodeValue, Typed;
    }
  }

  /**
    The registered writer writes the bytes of the generic path, appendMapAnyAny, if and only
    if the bools that it branches on are 0 or 1.
   */
  lemma FastIsGeneric(S: Schema, kt: Type, vt: Type, e: Entry)
    requires ElemType(TMap(kt, vt)) && Typed(S, kt, e.key) && Typed(S, vt, e.val)
    ensures var w := MapWriters(KindOf(kt), KindOf(vt));
      var branch := Plain(kt) && Plain(vt);
      Written(S, w.0, kt, e.key) + Written(S, w.1, vt, e.val) == EncodeValue(S, kt, e.key) + EncodeValue(S, vt, e.val)
      <==> GoBool(kt, e.key, branch) && GoBool(vt, e.val, branch)
  {
    hide Built, Written, EncodeValue, EncodePart, Typed, GoBool;
    var branch := Plain(kt) && Plain(vt);
    MapWritersWrite(S, kt, vt, e);
    PartIsGeneric(S, kt, e.key, branch);
    PartIsGeneric(S, vt, e.val, branch);
    PartLength(S, kt, e.key, branch);
    SameParts(EncodePart(S, kt, e.key, branch), EncodePart(S, vt, e.val, branch),
              EncodeValue(S, kt, e.key), EncodeValue(S, vt, e.val));
  }

  lemma PartLength(S: Schema, t: Type, v: Value, branch: bool)
    ensures |EncodePart(S, t, v, branch)| == |EncodeValue(S, t, v)|
  {
    if !t.TBool? {
      hide EncodeValue;
    }
  }

  lemma SameParts(a: seq<Byte>, b: seq<Byte>, c: seq<Byte>, d: seq<Byte>)
    requires |a| == |c|
    ensures a + b == c + d <==> a == c && b == d
  {
    assert (a + b)[..|a|] == a && (c + d)[..|a|] == c;
    assert (a + b)[|a|..] == b && (c + d)[|a|..] == d;
  }

  /** Lists of bools are the only ones without a writer of their own. */
  lemma ListWriterMissing(t: Type)
    requires ElemType(t)
    ensures ListWriter(KindOf(t)).None? <==> t.TBool?
  {
  }

  lemma ListWriterWrites(S: Schema, t: Type, v: Value)
    requires ElemType(t) && ListWriter(KindOf(t)).Some?
    ensures Written(S, ListWriter(KindOf(t)).value, t, v) == EncodeValue(S, t, v)
  {
    hide Built, EncodeMap, EncodeList, EncodeStruct;
  }

  // ----- Memory layout

  /** Size in memory of a map slot or slice element of type `t`. */
  function GoSize(t: Type): nat {
    match t
    case TBool => 1
    case TByte => 1
    case TI16 => 2
    case TI32 => 4
    case TString => 16
    case TBinary => 24
    case TSet(_) => 24
    case TList(_) => 24
    case _ => 8
  }

  /** Size of the key or value type in the Go map type that a scalar writer ranges over. */
  function SlotSize(w: Writer): nat {
    match w
    case WBool => 1
    case WI08 => 1
    case WI16 => 2
    case WI32 => 4
    case WI64 => 8
    case WEnum => 8
    case WString => 16
    case WOther => 0
  }

  /**
    Slots of one size stand side by side. What is stored in slot `p` of `own` bytes begins
    where a reader with slots of `read` bytes looks for its slot `p`.
   */
  predicate AtOwnOffset(own: nat, read: nat, p: nat) {
    p * read == p * own
  }

  /** The writer of two plain types ranges over the map as one of its own Go map type. */
  predicate SlotsAgree(kt: Type, vt: Type) {
    var w := MapWriters(KindOf(kt), KindOf(vt));
    w.0 != WOther && w.1 != WOther ==> SlotSize(w.0) == GoSize(kt) && SlotSize(w.1) == GoSize(vt)
  }

  /** What a registered writer finds in slot `p`, which holds `e`; None: parts of other slots. */
  function Seen(kt: Type, vt: Type, p: nat, e: Entry): Option<Entry> {
    var w := MapWriters(KindOf(kt), KindOf(vt));
    if w.0 == WOther || w.1 == WOther then Some(e)
    else if AtOwnOffset(GoSize(kt), SlotSize(w.0), p) && AtOwnOffset(GoSize(vt), SlotSize(w.1), p) then Some(e)
    else None
  }

  lemma OwnOffset(own: nat, read: nat, p: nat)
    ensures AtOwnOffset(own, read, p) <==> p == 0 || own == read
  {
    if p > 0 && p * read == p * own {
      if own < read {
        Monotone(own + 1, read, p);
      } else if read < own {
        Monotone(read + 1, own, p);
      }
    }
  }

  /** An entry is found in its slot if and only if the slots agree, or it is the first one. */
  lemma SeenInPlace(kt: Type, vt: Type, p: nat, e: Entry)
    ensures Seen(kt, vt, p, e) == Some(e) <==> p == 0 || SlotsAgree(kt, vt)
  {
    hide AtOwnOffset;
    var w := MapWriters(KindOf(kt), KindOf(vt));
    OwnOffset(GoSize(kt), SlotSize(w.0), p);
    OwnOffset(GoSize(vt), SlotSize(w.1), p);
  }

  /**
    Fast paths and the generic path agree on a map type if and only if its slots agree and the
    bools are 0 or 1: what is written for an entry, wherever its slot is.
   */
  lemma FastPathIsGeneric(S: Schema, kt: Type, vt: Type, p: nat, e: Entry)
    requires ElemType(TMap(kt, vt)) && Typed(S, kt, e.key) && Typed(S, vt, e.val)
    ensures var w := MapWriters(KindOf(kt), KindOf(vt));
      var branch := Plain(kt) && Plain(vt);
      var seen := Seen(kt, vt, p, e);
      && (seen == Some(e) <==> p == 0 || !(Plain(kt) && vt.TBinary?))
      && (seen.Some? ==>
        (Written(S, w.0, kt, seen.value.key) + Written(S, w.1, vt, seen.value.val)
          == EncodeValue(S, kt, e.key) + EncodeValue(S, vt, e.val)
        <==> GoBool(kt, e.key, branch) && GoBool(vt, e.val, branch)))
  {
    hide Built, Written, EncodeValue, SlotsAgree, Seen, Typed, GoBool;
    SeenInPlace(kt, vt, p, e);
    SeenIsOwn(kt, vt, p, e);
    ScalarLayout(kt, vt);
    FastIsGeneric(S, kt, vt, e);
  }

  lemma SeenIsOwn(kt: Type, vt: Type, p: nat, e: Entry)
    ensures Seen(kt, vt, p, e).Some? ==> Seen(kt, vt, p, e) == Some(e)
  {
  }

  /**
    The slots agree except for binary values behind a plain key: a []byte is 24 bytes and is
    read through slots of 16.
   */
  lemma ScalarLayout(kt: Type, vt: Type)
    requires ElemType(TMap(kt, vt))
    ensures SlotsAgree(kt, vt) <==> !(Plain(kt) && vt.TBinary?)
  {
  }

  /** The hash function of a Go map, by its key type. */
  datatype Hash = OfBytes(size: nat) | OfFloat | OfString | OfPointer

  function KeyHash(t: Type): Hash {
    if t.TDouble? then OfFloat
    else if t.TString? then OfString
    else if t.TStruct? then OfPointer
    else OfBytes(GoSize(t))
  }

  function RangeHash(w: Writer): Hash {
    if w == WString then OfString else OfBytes(SlotSize(w))
  }

  /**
    The Go map type that is ranged over hashes its keys as the actual map does, except for
    doubles, which are ranged over as uint64.
   */
  lemma RangeHashes(kt: Type, vt: Type)
    requires ElemType(TMap(kt, vt)) && Plain(kt) && Plain(vt)
    ensures RangeHash(MapWriters(KindOf(kt), KindOf(vt)).0) == KeyHash(kt) <==> !kt.TDouble?
  {
  }

  // ----- A map<string,binary>

  /** One word of the header of the byte slice in slot `p`. */
  datatype Word = Data(p: nat) | Len(p: nat) | Cap(p: nat)

  /** The headers of `n` byte slices, side by side. */
  function Headers(n: nat): (r: seq<Word>)
    ensures |r| == 3 * n
  {
    if n == 0 then [] else Headers(n - 1) + [Data(n - 1), Len(n - 1), Cap(n - 1)]
  }

  /** The two words of the string header that a writer reads in slot `p`. */
  function StringAt(n: nat, p: nat): seq<Word>
    requires 2 * p + 2 <= 3 * n
  {
    Headers(n)[2 * p..2 * p + 2]
  }

  /** The second of two strings would start at a capacity and be as long as an address. */
  lemma TwoByteSlices()
    ensures StringAt(2, 0) == [Data(0), Len(0)] && StringAt(2, 1) == [Cap(0), Data(1)]
    ensures forall k: Value, v: Value :: Seen(TString, TBinary, 1, Entry(k, v)) == None
  {
    assert Headers(1) == [Data(0), Len(0), Cap(0)];
    assert Headers(2) == [Data(0), Len(0), Cap(0), Data(1), Len(1), Cap(1)];
  }

  // ----- Maps that are read in place

  /**
    Ranging over the map as one of the writer's own Go map type yields its entries once each:
    the map is settled, that is, not in the middle of growing, or its keys are hashed alike.
   */
  predicate RangesOnce(kt: Type, vt: Type, settled: bool) {
    settled || (Plain(kt) && Plain(vt) ==> RangeHash(MapWriters(KindOf(kt), KindOf(vt)).0) == KeyHash(kt))
  }

  /**
    What is read in place, and once: all but binary values behind a plain key, and double keys
    of a map that is growing.
   */
  lemma WhatIsReadInPlace(kt: Type, vt: Type, settled: bool)
    requires ElemType(TMap(kt, vt))
    ensures SlotsAgree(kt, vt) && RangesOnce(kt, vt, settled)
      <==> !(Plain(kt) && vt.TBinary?) && (settled || !(kt.TDouble? && Plain(vt)))
  {
    ScalarLayout(kt, vt);
    if Plain(kt) && Plain(vt) {
      RangeHashes(kt, vt);
    }
  }

  /**
    All maps of `v` that have entries are read in place, and each entry once. `settled`: none
    of them is growing.
   */
  ghost predicate InPlace(S: Schema, t: Type, v: Value, settled: bool)
    decreases v, 2, t
  {
    match t
    case TPtr(e) => InPlace(S, e, v, settled)
    case TStruct(name) => name in S ==> StructInPlace(S, S[name], v, settled)
    case TMap(kt, vt) => MapInPlace(S, kt, vt, v, settled)
    case TSet(e) => ListInPlace(S, e, v, settled)
    case TList(e) => ListInPlace(S, e, v, settled)
    case _ => true
  }

  ghost predicate MapInPlace(S: Schema, kt: Type, vt: Type, v: Value, settled: bool)
    decreases v, 1
  {
    v.Map? ==> (v.entries == [] || RangesOnce(kt, vt, settled)) && EntriesInPlace(S, kt, vt, v, settled)
  }

  /** Each entry is found in its slot. */
  ghost predicate EntriesInPlace(S: Schema, kt: Type, vt: Type, v: Value, settled: bool)
    requires v.Map?
    decreases v, 0
  {
    && (v.entries == [] || SlotsAgree(kt, vt))
    && forall i :: 0 <= i < |v.entries| ==>
         InPlace(S, kt, v.entries[i].key, settled) && InPlace(S, vt, v.entries[i].val, settled)
  }

  ghost predicate ListInPlace(S: Schema, e: Type, v: Value, settled: bool)
    decreases v, 0
  {
    v.List? ==> forall i :: 0 <= i < |v.elems| ==> InPlace(S, e, v.elems[i], settled)
  }

  ghost predicate StructInPlace(S: Schema, sd: StructDesc, v: Value, settled: bool)
    decreases v, 0
  {
    Shaped(sd, v) ==> forall i :: 0 <= i < |sd.fields| ==> InPlace(S, sd.fields[i].typ, v.fields[i], settled)
  }
}
