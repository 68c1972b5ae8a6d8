/**
  An older schema in which every struct is an older form of its namesake in the new one, with
  unknown fields kept at each level: what becomes of a value on the way through it.
 */
module Evolution {
  import opened Common
  import opened BigEndian
  import opened Schema
  import opened Reference
  import opened Wire
  import opened ReadingBack
  import opened TypedReading
  import opened Passthrough
  import opened Codec

  // ----- Two schemas

  /** Every struct of `R` is an older form of its namesake in `S`. */
  ghost predicate Evolved(R: Schema, S: Schema) {
    && Closed(R) && SchemaTyped(R) && SchemaTyped(S)
    && forall n :: n in R ==> n in S && Older(R[n], S[n]) && FlatInit(R[n])
  }

  /** No struct inside. */
  ghost predicate Flat(v: Value) {
    match v
    case Struct(_, _) => false
    case List(es) => forall i :: 0 <= i < |es| ==> Flat(es[i])
    case Map(es) => forall i :: 0 <= i < |es| ==> Flat(es[i].key) && Flat(es[i].val)
    case _ => true
  }

  /** Defaults of struct fields are nil. */
  ghost predicate FlatInit(sd: StructDesc) {
    forall j :: 0 <= j < |sd.fields| ==> Flat(sd.init[j])
  }

  // ----- What comes back

  /**
    `x`, what was read of an encoding of `len` bytes, is `w` if and only if `same` holds. Then
    it costs at least `lo`, which is the cost of the encoded value, and at most that or `hi`.
   */
  ghost predicate Back<A>(x: Option<Read<A>>, w: A, len: int, same: bool, lo: nat, hi: nat) {
    && (x.Some? ==> x.value.n == len)
    && (same <==> x.Some? && x.value.val == w)
    && (same ==> lo <= x.value.cost <= Max(lo, hi))
  }

  /** `u`, encoded with the old schema and in front of `s`, as the new schema reads it. */
  ghost predicate BackBefore(R: Schema, S: Schema, t: Type, u: Value, w: Value, hi: nat, s: seq<Byte>) {
    Back(ReadValue(S, t, EncodeValue(R, t, u) + s), w, |EncodeValue(R, t, u)|, Canonical(R, t, u), Cost(R, t, u), hi)
  }

  /** Types without structs or containers. */
  predicate Simple(t: Type) {
    Plain(t) || t.TPtr?
  }

  predicate Alike(t: Type, u: Value, w: Value) {
    (u.Nil? <==> w.Nil?) && (Simple(t) ==> u == w)
  }

  /**
    `u` is what the old schema has read where the new one has read `w` at a cost of `hi`: it
    comes back as `w` if and only if it is canonical.
   */
  ghost predicate Related(R: Schema, S: Schema, t: Type, u: Value, w: Value, hi: nat) {
    Alike(t, u, w) && forall s :: BackBefore(R, S, t, u, w, hi, s)
  }

  lemma BackMore<A>(x: Option<Read<A>>, w: A, len: int, same: bool, lo: nat, hi: nat, more: nat)
    requires Back(x, w, len, same, lo, hi) && hi <= more
    ensures Back(x, w, len, same, lo, more)
  {
  }

  lemma RelatedMore(R: Schema, S: Schema, t: Type, u: Value, w: Value, hi: nat, more: nat)
    requires Related(R, S, t, u, w, hi) && hi <= more
    ensures Related(R, S, t, u, w, more)
  {
    hide Alike, ReadValue, EncodeValue, Canonical, Cost, Back;
    forall s ensures BackBefore(R, S, t, u, w, more, s) {
      assert BackBefore(R, S, t, u, w, hi, s);
      BackMore(ReadValue(S, t, EncodeValue(R, t, u) + s), w, |EncodeValue(R, t, u)|, Canonical(R, t, u),
               Cost(R, t, u), hi, more);
    }
  }

  /** The elements behind the one that `x` is. */
  function ConsOf<A>(x: Option<Read<A>>, r: Option<Read<seq<A>>>): Option<Read<seq<A>>> {
    match x
    case None => None
    case Some(h) => Cons(h, r)
  }

  lemma BackCons<A>(x: Option<Read<A>>, r: Option<Read<seq<A>>>, w: seq<A>, j: nat, n1: int, n2: int, same1: bool,
                    same2: bool, lo1: nat, lo2: nat, hi: nat)
    requires j < |w| && Back(x, w[j], n1, same1, lo1, hi) && Back(r, w[j + 1..], n2, same2, lo2, hi)
    ensures Back(ConsOf(x, r), w[j..], n1 + n2, same1 && same2, Max(lo1, lo2), hi)
  {
    if x.Some? && r.Some? {
      SameCons(x.value.val, r.value.val, w, j);
    }
  }

  lemma BackBehind<A>(x: Option<Read<A>>, w: A, len: int, same: bool, lo: nat, hi: nat, n: nat, f: A -> Value, v: Value)
    requires Back(x, w, len, same, lo, hi)
    requires x.Some? ==> (f(x.value.val) == v <==> x.value.val == w)
    ensures Back(Behind(n, x, f), v, n + len, same, 1 + lo, 1 + hi)
  {
  }

  // ----- Lists

  lemma {:induction false} ElemsBack(R: Schema, S: Schema, e: Type, u: Value, w: seq<Value>, hi: nat, j: nat,
                                     s: seq<Byte>)
    requires u.List? && |u.elems| == |w| && j <= |w|
    requires forall i :: 0 <= i < |w| ==> Related(R, S, e, u.elems[i], w[i], hi)
    ensures Back(ReadElems(S, e, EncodeElems(R, e, u, j) + s, |w| - j), w[j..], |EncodeElems(R, e, u, j)|,
                 CanonicalElems(R, e, u, j), ElemsCost(R, e, u, j), hi)
    decreases |w| - j
  {
    hide ReadValue, ReadElems, EncodeValue, Canonical, Cost, Back, Alike, Built;
    if j < |w| {
      var rest := EncodeElems(R, e, u, j + 1) + s;
      ElemsBack(R, S, e, u, w, hi, j + 1, s);
      ElemsSplit(R, e, u, j, s);
      assert BackBefore(R, S, e, u.elems[j], w[j], hi, rest);
      HasLength(ReadValue(S, e, EncodeValue(R, e, u.elems[j]) + rest), w[j], |EncodeValue(R, e, u.elems[j])|,
                Canonical(R, e, u.elems[j]), Cost(R, e, u.elems[j]), hi);
      ElemsStep(S, e, EncodeValue(R, e, u.elems[j]), rest, |w| - j);
      BackCons(ReadValue(S, e, EncodeValue(R, e, u.elems[j]) + rest), ReadElems(S, e, rest, |w| - j - 1), w, j,
               |EncodeValue(R, e, u.elems[j])|, |EncodeElems(R, e, u, j + 1)|, Canonical(R, e, u.elems[j]),
               CanonicalElems(R, e, u, j + 1), Cost(R, e, u.elems[j]), ElemsCost(R, e, u, j + 1), hi);
    } else {
      NoElems(S, e, EncodeElems(R, e, u, j) + s);
      NoMoreElems(R, e, u);
      NothingBack<Value>(hi);
      assert w[j..] == [];
    }
  }

  lemma HasLength<A>(x: Option<Read<A>>, w: A, len: int, same: bool, lo: nat, hi: nat)
    requires Back(x, w, len, same, lo, hi)
    ensures x.Some? ==> x.value.n == len
  {
  }

  lemma NothingBack<A>(hi: nat)
    ensures Back<seq<A>>(Some(Read([], 0, 0)), [], 0, true, 0, hi)
  {
  }

  lemma ListBack(R: Schema, S: Schema, e: Type, u: Value, w: Value, hi: nat, s: seq<Byte>)
    requires u.List? && w.List? && |u.elems| == |w.elems| < TWO_31
    requires forall i :: 0 <= i < |w.elems| ==> Related(R, S, e, u.elems[i], w.elems[i], hi)
    ensures Back(ReadList(S, e, EncodeList(R, e, u) + s), w, |EncodeList(R, e, u)|, CanonicalElems(R, e, u, 0),
                 1 + ElemsCost(R, e, u, 0), 1 + hi)
  {
    hide ReadElems, EncodeElems, CanonicalElems, ElemsCost, Put32, Get32, Back, Related, Built;
    ListHeaderReads(WireType(e), |u.elems|, EncodeElems(R, e, u, 0), s);
    ElemsBack(R, S, e, u, w.elems, hi, 0, s);
    assert w.elems[0..] == w.elems;
    BackBehind(ReadElems(S, e, EncodeElems(R, e, u, 0) + s, |u.elems|), w.elems, |EncodeElems(R, e, u, 0)|,
               CanonicalElems(R, e, u, 0), ElemsCost(R, e, u, 0), hi, 5, (es: seq<Value>) => List(es), w);
  }

  // ----- Maps

  ghost predicate RelatedEntry(R: Schema, S: Schema, kt: Type, vt: Type, u: Entry, w: Entry, hi: nat) {
    Related(R, S, kt, u.key, w.key, hi) && Related(R, S, vt, u.val, w.val, hi)
  }

  /** A bool that is written through a branch, and everything else. */
  lemma PartBack(R: Schema, S: Schema, t: Type, u: Value, w: Value, hi: nat, branch: bool, s: seq<Byte>)
    requires Related(R, S, t, u, w, hi)
    ensures Back(ReadValue(S, t, EncodePart(R, t, u, branch) + s), w, |EncodePart(R, t, u, branch)|,
                 GoBool(t, u, branch) && Canonical(R, t, u), Cost(R, t, u), hi)
  {
    if branch && t.TBool? {
      assert u == w;
    } else {
      hide ReadValue, EncodeValue, Canonical, Cost, Back, Alike;
      assert BackBefore(R, S, t, u, w, hi, s);
    }
  }

  function EntryOf(x: Option<Read<Value>>, y: Option<Read<Value>>): Option<Read<Entry>> {
    match x
    case None => None
    case Some(k) => WithValue(k, y)
  }

  lemma BackEntry(x: Option<Read<Value>>, y: Option<Read<Value>>, w: Entry, n1: int, n2: int, same1: bool, same2: bool,
                  lo1: nat, lo2: nat, hi: nat)
    requires Back(x, w.key, n1, same1, lo1, hi) && Back(y, w.val, n2, same2, lo2, hi)
    ensures Back(EntryOf(x, y), w, n1 + n2, same1 && same2, Max(lo1, lo2), hi)
  {
  }

  /** A key of `k` bytes and the value behind it. */
  lemma EntryStep(S: Schema, kt: Type, vt: Type, k: seq<Byte>, rest: seq<Byte>)
    requires var x := ReadValue(S, kt, k + rest); x.Some? ==> x.value.n == |k|
    ensures ReadEntry(S, kt, vt, k + rest) == EntryOf(ReadValue(S, kt, k + rest), ReadValue(S, vt, rest))
  {
    hide ReadValue, Built;
    DropPrefix(k, rest);
  }

  lemma EntryParts(R: Schema, kt: Type, vt: Type, u: Entry)
    ensures var branch := Plain(kt) && Plain(vt);
      && EncodeEntry(R, kt, vt, u) == EncodePart(R, kt, u.key, branch) + EncodePart(R, vt, u.val, branch)
      && EntryCost(R, kt, vt, u) == Max(Cost(R, kt, u.key), Cost(R, vt, u.val))
  {
    hide EncodePart, Cost, Plain, Built;
  }

  lemma CanonicalParts(R: Schema, kt: Type, vt: Type, u: Entry)
    ensures var branch := Plain(kt) && Plain(vt);
      CanonicalEntry(R, kt, vt, u)
      <==> GoBool(kt, u.key, branch) && Canonical(R, kt, u.key) && GoBool(vt, u.val, branch) && Canonical(R, vt, u.val)
  {
    hide Canonical, GoBool, Plain, Built;
  }

  lemma PartsBack(R: Schema, S: Schema, kt: Type, vt: Type, u: Entry, w: Entry, hi: nat, branch: bool, s: seq<Byte>)
    requires RelatedEntry(R, S, kt, vt, u, w, hi)
    ensures var k, v := EncodePart(R, kt, u.key, branch), EncodePart(R, vt, u.val, branch);
      Back(ReadEntry(S, kt, vt, k + (v + s)), w, |k| + |v|,
           (GoBool(kt, u.key, branch) && Canonical(R, kt, u.key))
           && (GoBool(vt, u.val, branch) && Canonical(R, vt, u.val)),
           Max(Cost(R, kt, u.key), Cost(R, vt, u.val)), hi)
  {
    hide ReadValue, ReadEntry, EncodePart, Canonical, Cost, Back, Related, GoBool, Built;
    var k, v := EncodePart(R, kt, u.key, branch), EncodePart(R, vt, u.val, branch);
    var same1 := GoBool(kt, u.key, branch) && Canonical(R, kt, u.key);
    var same2 := GoBool(vt, u.val, branch) && Canonical(R, vt, u.val);
    PartBack(R, S, kt, u.key, w.key, hi, branch, v + s);
    PartBack(R, S, vt, u.val, w.val, hi, branch, s);
    HasLength(ReadValue(S, kt, k + (v + s)), w.key, |k|, same1, Cost(R, kt, u.key), hi);
    EntryStep(S, kt, vt, k, v + s);
    BackEntry(ReadValue(S, kt, k + (v + s)), ReadValue(S, vt, v + s), w, |k|, |v|, same1, same2, Cost(R, kt, u.key),
              Cost(R, vt, u.val), hi);
  }

  lemma EntryBack(R: Schema, S: Schema, kt: Type, vt: Type, u: Entry, w: Entry, hi: nat, s: seq<Byte>)
    requires RelatedEntry(R, S, kt, vt, u, w, hi)
    ensures Back(ReadEntry(S, kt, vt, EncodeEntry(R, kt, vt, u) + s), w, |EncodeEntry(R, kt, vt, u)|,
                 CanonicalEntry(R, kt, vt, u), EntryCost(R, kt, vt, u), hi)
  {
    hide ReadEntry, EncodePart, EncodeEntry, CanonicalEntry, EntryCost, Canonical, Cost, Back, RelatedEntry;
    hide GoBool, Plain, Max, Built;
    var branch := Plain(kt) && Plain(vt);
    EntryParts(R, kt, vt, u);
    CanonicalParts(R, kt, vt, u);
    Assoc(EncodePart(R, kt, u.key, branch), EncodePart(R, vt, u.val, branch), s);
    PartsBack(R, S, kt, vt, u, w, hi, branch, s);
  }

  /** The entries from `j` on begin with entry `j`. */
  lemma EntriesSplit(R: Schema, kt: Type, vt: Type, u: Value, j: nat, s: seq<Byte>)
    requires u.Map? && j < |u.entries|
    ensures var h := EncodeEntry(R, kt, vt, u.entries[j]);
      var r := EncodeEntries(R, kt, vt, u, j + 1);
      EncodeEntries(R, kt, vt, u, j) + s == h + (r + s) && |EncodeEntries(R, kt, vt, u, j)| == |h| + |r|
    ensures CanonicalEntries(R, kt, vt, u, j)
      <==> CanonicalEntry(R, kt, vt, u.entries[j]) && CanonicalEntries(R, kt, vt, u, j + 1)
    ensures EntriesCost(R, kt, vt, u, j)
      == Max(EntryCost(R, kt, vt, u.entries[j]), EntriesCost(R, kt, vt, u, j + 1))
  {
    hide EncodeEntry, CanonicalEntry, EntryCost, Built;
    Assoc(EncodeEntry(R, kt, vt, u.entries[j]), EncodeEntries(R, kt, vt, u, j + 1), s);
  }

  lemma NoMoreToCome(R: Schema, kt: Type, vt: Type, u: Value)
    requires u.Map?
    ensures var j := |u.entries|;
      && EncodeEntries(R, kt, vt, u, j) == [] && CanonicalEntries(R, kt, vt, u, j)
      && EntriesCost(R, kt, vt, u, j) == 0
  {
  }

  ghost predicate RelatedEntries(R: Schema, S: Schema, kt: Type, vt: Type, u: Value, w: seq<Entry>, hi: nat) {
    && u.Map? && |u.entries| == |w|
    && forall i :: 0 <= i < |w| ==> RelatedEntry(R, S, kt, vt, u.entries[i], w[i], hi)
  }

  lemma {:induction false} EntriesBack(R: Schema, S: Schema, kt: Type, vt: Type, u: Value, w: seq<Entry>, hi: nat,
                                       j: nat, s: seq<Byte>)
    requires RelatedEntries(R, S, kt, vt, u, w, hi) && j <= |w|
    ensures Back(ReadEntries(S, kt, vt, EncodeEntries(R, kt, vt, u, j) + s, |w| - j), w[j..],
                 |EncodeEntries(R, kt, vt, u, j)|, CanonicalEntries(R, kt, vt, u, j), EntriesCost(R, kt, vt, u, j), hi)
    decreases |w| - j
  {
    hide ReadEntry, ReadEntries, EncodeEntry, CanonicalEntry, EntryCost, Back, RelatedEntry, Built;
    hide EncodeEntries, CanonicalEntries, EntriesCost;
    if j < |w| {
      var e := u.entries[j];
      var h := EncodeEntry(R, kt, vt, e);
      var rest := EncodeEntries(R, kt, vt, u, j + 1) + s;
      EntriesBack(R, S, kt, vt, u, w, hi, j + 1, s);
      EntriesSplit(R, kt, vt, u, j, s);
      EntryBack(R, S, kt, vt, e, w[j], hi, rest);
      HasLength(ReadEntry(S, kt, vt, h + rest), w[j], |h|, CanonicalEntry(R, kt, vt, e), EntryCost(R, kt, vt, e), hi);
      EntriesStep(S, kt, vt, h, rest, |w| - j);
      BackCons(ReadEntry(S, kt, vt, h + rest), ReadEntries(S, kt, vt, rest, |w| - j - 1), w, j, |h|,
               |EncodeEntries(R, kt, vt, u, j + 1)|, CanonicalEntry(R, kt, vt, e),
               CanonicalEntries(R, kt, vt, u, j + 1), EntryCost(R, kt, vt, e), EntriesCost(R, kt, vt, u, j + 1), hi);
    } else {
      NoEntries(S, kt, vt, EncodeEntries(R, kt, vt, u, j) + s);
      NoMoreToCome(R, kt, vt, u);
      NothingBack<Entry>(hi);
      assert w[j..] == [];
    }
  }

  /** Distinct keys: putting the entries into a map gives these entries or others. */
  lemma PutBack(kt: Type, es: seq<Entry>, w: seq<Entry>)
    requires |es| == |w| && DistinctKeys(kt, w)
    ensures PutAll(kt, [], es) == w <==> es == w
  {
    hide PutAll, DistinctKeys;
    PutAllKeepsCount(kt, [], es);
    assert [] + es == es;
    PutAllNew(kt, w);
  }

  lemma {:induction false} ReadsCount(S: Schema, kt: Type, vt: Type, b: seq<Byte>, l: nat)
    requires ReadEntries(S, kt, vt, b, l).Some?
    ensures |ReadEntries(S, kt, vt, b, l).value.val| == l
    decreases l
  {
    hide ReadEntry, Built;
    if l > 0 {
      ReadsCount(S, kt, vt, b[ReadEntry(S, kt, vt, b).value.n..], l - 1);
    }
  }

  /** The entries of a map, put into a new one. */
  function MapOf(kt: Type, x: Option<Read<seq<Entry>>>): Option<Read<Value>> {
    Behind(6, x, (es: seq<Entry>) => Map(PutAll(kt, [], es)))
  }

  lemma MapReads(R: Schema, S: Schema, kt: Type, vt: Type, u: Value, s: seq<Byte>)
    requires u.Map? && |u.entries| < TWO_31
    ensures ReadMap(S, kt, vt, EncodeMap(R, kt, vt, u) + s)
      == MapOf(kt, ReadEntries(S, kt, vt, EncodeEntries(R, kt, vt, u, 0) + s, |u.entries|))
    ensures |EncodeMap(R, kt, vt, u)| == 6 + |EncodeEntries(R, kt, vt, u, 0)|
  {
    hide ReadEntries, EncodeEntries, Put32, Get32, PutAll, Built;
    MapHeaderReads(WireType(kt), WireType(vt), |u.entries|, EncodeEntries(R, kt, vt, u, 0), s);
  }

  lemma BackMap(kt: Type, x: Option<Read<seq<Entry>>>, w: Value, len: int, same: bool, lo: nat, hi: nat)
    requires w.Map? && DistinctKeys(kt, w.entries) && Back(x, w.entries, len, same, lo, hi)
    requires x.Some? ==> |x.value.val| == |w.entries|
    ensures Back(MapOf(kt, x), w, 6 + len, same, 1 + lo, 1 + hi)
  {
    hide PutAll, DistinctKeys;
    if x.Some? {
      PutBack(kt, x.value.val, w.entries);
    }
  }

  lemma MapBack(R: Schema, S: Schema, kt: Type, vt: Type, u: Value, w: Value, hi: nat, s: seq<Byte>)
    requires w.Map? && |w.entries| < TWO_31 && DistinctKeys(kt, w.entries)
    requires RelatedEntries(R, S, kt, vt, u, w.entries, hi)
    ensures Back(ReadMap(S, kt, vt, EncodeMap(R, kt, vt, u) + s), w, |EncodeMap(R, kt, vt, u)|,
                 CanonicalEntries(R, kt, vt, u, 0), 1 + EntriesCost(R, kt, vt, u, 0), 1 + hi)
  {
    hide ReadMap, EncodeMap, ReadEntries, EncodeEntries, CanonicalEntries, EntriesCost, MapOf, Back, RelatedEntry;
    hide DistinctKeys, Built;
    MapReads(R, S, kt, vt, u, s);
    EntriesBack(R, S, kt, vt, u, w.entries, hi, 0, s);
    assert w.entries[0..] == w.entries;
    var x := ReadEntries(S, kt, vt, EncodeEntries(R, kt, vt, u, 0) + s, |u.entries|);
    if x.Some? {
      ReadsCount(S, kt, vt, EncodeEntries(R, kt, vt, u, 0) + s, |u.entries|);
    }
    BackMap(kt, x, w, |EncodeEntries(R, kt, vt, u, 0)|, CanonicalEntries(R, kt, vt, u, 0),
            EntriesCost(R, kt, vt, u, 0), hi);
  }

  // ----- Defaults

  /** A value without structs is encoded alike with both schemas. */
  lemma {:induction false} FlatSame(R: Schema, S: Schema, t: Type, v: Value)
    requires Flat(v)
    ensures EncodeValue(R, t, v) == EncodeValue(S, t, v) && Cost(R, t, v) == Cost(S, t, v)
    ensures Canonical(R, t, v) <==> Canonical(S, t, v)
    decreases v, 2, t
  {
    hide EncodeValue, Cost, Canonical, Flat, Built;
    match t
    case TPtr(e) => FlatSame(R, S, e, v); PointeeIs(R, e, v); PointeeIs(S, e, v);
    case TMap(kt, vt) => FlatMap(R, S, kt, vt, v);
    case TSet(e) => FlatList(R, S, t, e, v);
    case TList(e) => FlatList(R, S, t, e, v);
    case _ => FlatLeaf(R, S, t, v);
  }

  lemma PointeeIs(S: Schema, e: Type, v: Value)
    ensures EncodeValue(S, TPtr(e), v) == EncodeValue(S, e, v) && Cost(S, TPtr(e), v) == Cost(S, e, v)
    ensures Canonical(S, TPtr(e), v) <==> Canonical(S, e, v)
  {
    hide EncodeList, EncodeMap, EncodeStruct, EncodeString;
  }

  lemma FlatLeaf(R: Schema, S: Schema, t: Type, v: Value)
    requires Flat(v) && !t.TPtr? && !t.TMap? && !t.TSet? && !t.TList?
    ensures EncodeValue(R, t, v) == EncodeValue(S, t, v) && Cost(R, t, v) == Cost(S, t, v)
    ensures Canonical(R, t, v) <==> Canonical(S, t, v)
  {
    hide PutFixed, EncodeString, EncodeStruct, StructCost, CanonicalFields, Flat, Built;
    if t.TStruct? {
      NoStruct(v);
    }
  }

  lemma NoStruct(v: Value)
    requires Flat(v)
    ensures !v.Struct?
  {
  }

  lemma {:induction false} FlatList(R: Schema, S: Schema, t: Type, e: Type, v: Value)
    requires Flat(v) && (t == TSet(e) || t == TList(e))
    ensures EncodeValue(R, t, v) == EncodeValue(S, t, v) && Cost(R, t, v) == Cost(S, t, v)
    ensures Canonical(R, t, v) <==> Canonical(S, t, v)
    decreases v, 2, e, 0
  {
    hide EncodeElems, ElemsCost, CanonicalElems, Flat, Built;
    if v.List? {
      FlatElems(R, S, e, v, 0);
    }
  }

  lemma MapSteps(S: Schema, kt: Type, vt: Type, v: Value)
    ensures var t := TMap(kt, vt);
      && EncodeValue(S, t, v) == EncodeMap(S, kt, vt, v)
      && Cost(S, t, v) == (if v.Map? then 1 + EntriesCost(S, kt, vt, v, 0) else 1)
      && (Canonical(S, t, v) <==> v.Map? && CanonicalEntries(S, kt, vt, v, 0))
  {
    hide EncodeMap, EntriesCost, CanonicalEntries, Built;
  }

  lemma {:induction false} FlatMap(R: Schema, S: Schema, kt: Type, vt: Type, v: Value)
    requires Flat(v)
    ensures var t := TMap(kt, vt);
      && EncodeValue(R, t, v) == EncodeValue(S, t, v) && Cost(R, t, v) == Cost(S, t, v)
      && (Canonical(R, t, v) <==> Canonical(S, t, v))
    decreases v, 2, kt, 0
  {
    hide EncodeEntries, EntriesCost, CanonicalEntries, Flat, Put32, Built;
    MapSteps(R, kt, vt, v);
    MapSteps(S, kt, vt, v);
    hide EncodeValue, Cost, Canonical;
    if v.Map? {
      FlatEntries(R, S, kt, vt, v, 0);
    }
  }

  lemma {:induction false} FlatElems(R: Schema, S: Schema, e: Type, v: Value, j: nat)
    requires v.List? && Flat(v) && j <= |v.elems|
    ensures EncodeElems(R, e, v, j) == EncodeElems(S, e, v, j) && ElemsCost(R, e, v, j) == ElemsCost(S, e, v, j)
    ensures CanonicalElems(R, e, v, j) <==> CanonicalElems(S, e, v, j)
    decreases v, 1, |v.elems| - j
  {
    hide EncodeValue, Cost, Canonical, Built;
    if j < |v.elems| {
      FlatSame(R, S, e, v.elems[j]);
      FlatElems(R, S, e, v, j + 1);
    }
  }

  lemma {:induction false} FlatEntries(R: Schema, S: Schema, kt: Type, vt: Type, v: Value, j: nat)
    requires v.Map? && Flat(v) && j <= |v.entries|
    ensures EncodeEntries(R, kt, vt, v, j) == EncodeEntries(S, kt, vt, v, j)
    ensures EntriesCost(R, kt, vt, v, j) == EntriesCost(S, kt, vt, v, j)
    ensures CanonicalEntries(R, kt, vt, v, j) <==> CanonicalEntries(S, kt, vt, v, j)
    decreases v, 1, |v.entries| - j
  {
    hide EncodeEntry, EntryCost, CanonicalEntry, EncodeEntries, EntriesCost, CanonicalEntries, Flat, Built;
    NoMoreToCome(R, kt, vt, v);
    NoMoreToCome(S, kt, vt, v);
    if j < |v.entries| {
      FlatEntry(R, S, kt, vt, v, j);
      FlatEntries(R, S, kt, vt, v, j + 1);
      EntriesSplit(R, kt, vt, v, j, []);
      EntriesSplit(S, kt, vt, v, j, []);
      EmptySides(EncodeEntries(R, kt, vt, v, j));
      EmptySides(EncodeEntries(S, kt, vt, v, j));
    }
  }

  lemma {:induction false} FlatEntry(R: Schema, S: Schema, kt: Type, vt: Type, v: Value, j: nat)
    requires v.Map? && Flat(v) && j < |v.entries|
    ensures var e := v.entries[j];
      && EncodeEntry(R, kt, vt, e) == EncodeEntry(S, kt, vt, e) && EntryCost(R, kt, vt, e) == EntryCost(S, kt, vt, e)
      && (CanonicalEntry(R, kt, vt, e) <==> CanonicalEntry(S, kt, vt, e))
    decreases v, 1, |v.entries| - j, 0
  {
    hide EncodeEntry, EntryCost, CanonicalEntry, EncodeValue, Cost, Canonical, Built;
    FlatSame(R, S, kt, v.entries[j].key);
    FlatSame(R, S, vt, v.entries[j].val);
    SameEntry(R, S, kt, vt, v.entries[j]);
  }

  lemma SameEntry(R: Schema, S: Schema, kt: Type, vt: Type, e: Entry)
    requires EncodeValue(R, kt, e.key) == EncodeValue(S, kt, e.key) && Cost(R, kt, e.key) == Cost(S, kt, e.key)
    requires EncodeValue(R, vt, e.val) == EncodeValue(S, vt, e.val) && Cost(R, vt, e.val) == Cost(S, vt, e.val)
    requires Canonical(R, kt, e.key) <==> Canonical(S, kt, e.key)
    requires Canonical(R, vt, e.val) <==> Canonical(S, vt, e.val)
    ensures EncodeEntry(R, kt, vt, e) == EncodeEntry(S, kt, vt, e) && EntryCost(R, kt, vt, e) == EntryCost(S, kt, vt, e)
    ensures CanonicalEntry(R, kt, vt, e) <==> CanonicalEntry(S, kt, vt, e)
  {
    hide EncodeEntry, CanonicalEntry, EncodeValue, Cost, Canonical, Built;
    SameBytes(R, S, kt, vt, e);
    CanonicalParts(R, kt, vt, e);
    CanonicalParts(S, kt, vt, e);
  }

  lemma SameBytes(R: Schema, S: Schema, kt: Type, vt: Type, e: Entry)
    requires EncodeValue(R, kt, e.key) == EncodeValue(S, kt, e.key)
    requires EncodeValue(R, vt, e.val) == EncodeValue(S, vt, e.val)
    ensures EncodeEntry(R, kt, vt, e) == EncodeEntry(S, kt, vt, e)
  {
    hide EncodePart, EncodeValue, Plain, Built;
    SamePart(R, S, kt, e.key, Plain(kt) && Plain(vt));
    SamePart(R, S, vt, e.val, Plain(kt) && Plain(vt));
  }

  lemma SamePart(R: Schema, S: Schema, t: Type, v: Value, branch: bool)
    requires EncodeValue(R, t, v) == EncodeValue(S, t, v)
    ensures EncodePart(R, t, v, branch) == EncodePart(S, t, v, branch)
  {
    hide EncodeValue, Built;
  }

  lemma FlatBack(R: Schema, S: Schema, t: Type, v: Value, hi: nat, s: seq<Byte>)
    requires Flat(v) && Typed(S, t, v) && Readable(t, v)
    ensures BackBefore(R, S, t, v, v, hi, s)
  {
    hide ReadValue, EncodeValue, Canonical, Cost, Norm, Restorable, Typed, Flat, Readable, Built;
    FlatSame(R, S, t, v);
    ValueReadsBack(S, t, v, s);
    NormFixesCanonical(S, t, v);
    if Canonical(S, t, v) {
      CanonicalIsRestorable(S, t, v);
    }
  }

  // ----- Fields

  ghost predicate FieldBackBefore(R: Schema, S: Schema, f: Field, u: Value, w: Value, hi: nat, s: seq<Byte>) {
    Back(ReadFieldValue(S, f, EncodeValue(R, f.typ, u) + s), w, |EncodeValue(R, f.typ, u)|, Canonical(R, f.typ, u),
         if f.noCopy then 0 else Cost(R, f.typ, u), hi)
  }

  /** A field of the old struct that holds `u` where the new one holds `w`; it may be left out. */
  ghost predicate RelatedField(R: Schema, S: Schema, known: StructDesc, j: nat, u: Value, w: Value, hi: nat)
    requires j < |known.fields|
  {
    && Alike(known.fields[j].typ, u, w)
    && (!Skipped(known, j, u) ==> forall s :: FieldBackBefore(R, S, known.fields[j], u, w, hi, s))
  }

  lemma RelatedFieldMore(R: Schema, S: Schema, known: StructDesc, j: nat, u: Value, w: Value, hi: nat, more: nat)
    requires j < |known.fields| && RelatedField(R, S, known, j, u, w, hi) && hi <= more
    ensures RelatedField(R, S, known, j, u, w, more)
  {
    hide Alike, Skipped, ReadFieldValue, EncodeValue, Canonical, Cost, Back, Built;
    if !Skipped(known, j, u) {
      var f := known.fields[j];
      forall s ensures FieldBackBefore(R, S, f, u, w, more, s) {
        assert FieldBackBefore(R, S, f, u, w, hi, s);
        BackMore(ReadFieldValue(S, f, EncodeValue(R, f.typ, u) + s), w, |EncodeValue(R, f.typ, u)|,
                 Canonical(R, f.typ, u), if f.noCopy then 0 else Cost(R, f.typ, u), hi, more);
      }
    }
  }

  lemma NoCopyBack(R: Schema, S: Schema, f: Field, v: Value, hi: nat, s: seq<Byte>)
    requires ResolvedField(f) && f.noCopy && Typed(S, f.typ, v) && Readable(f.typ, v)
    ensures FieldBackBefore(R, S, f, v, v, hi, s)
  {
    hide EncodeString, ReadString, EncodeValue, Canonical, Cost, Typed;
    NoCopyValue(R, S, f, v);
    StringReadsBack(Content(v), s, 0);
  }

  lemma NoCopyValue(R: Schema, S: Schema, f: Field, v: Value)
    requires ResolvedField(f) && f.noCopy && Typed(S, f.typ, v) && Readable(f.typ, v)
    ensures FixedSize(f.typ) == 0 && |Content(v)| < TWO_31
    ensures EncodeValue(R, f.typ, v) == EncodeString(Content(v)) && (Canonical(R, f.typ, v) <==> v.Bytes?)
  {
    hide EncodeString;
    if f.typ.TPtr? {
      assert f.typ.pointee.TString? && v.Bytes?;
      assert EncodeValue(R, f.typ.pointee, v) == EncodeString(Content(v)) && Canonical(R, f.typ.pointee, v);
    }
  }

  lemma DefaultRelated(R: Schema, S: Schema, known: StructDesc, j: nat)
    requires j < |known.fields| && Flat(known.init[j]) && Typed(S, known.fields[j].typ, known.init[j])
    ensures RelatedField(R, S, known, j, known.init[j], known.init[j], 0)
  {
    var f, v := known.fields[j], known.init[j];
    if !Skipped(known, j, v) {
      FieldIsReadable(known, j, v);
      assert ResolvedField(f);
      hide Skipped, EncodeValue, Canonical, Cost, Back, Readable, Typed, Flat, Built, ReadValue, ResolvedField;
      forall s ensures FieldBackBefore(R, S, f, v, v, 0, s) {
        if f.noCopy {
          NoCopyBack(R, S, f, v, 0, s);
        } else {
          FlatBack(R, S, f.typ, v, 0, s);
        }
      }
    }
  }

  // ----- The fields that the old struct knows, read by the new one

  /** All fields that the old struct knows. */
  ghost predicate RelatedFields(R: Schema, S: Schema, full: StructDesc, known: StructDesc, us: seq<Value>,
                                ws: seq<Value>, hi: nat)
    requires Older(known, full)
  {
    && |us| == |known.fields| && |ws| == |full.fields|
    && forall j :: 0 <= j < |us| ==> RelatedField(R, S, known, j, us[j], ws[At(known, full, j)], hi)
  }

  /** What the new struct has after field `j` and those behind it: what it had, or what came back. */
  ghost predicate TakenOver(R: Schema, full: StructDesc, known: StructDesc, u: Value, w: seq<Value>, j: nat, p: Partial,
                            q: Partial)
    requires Older(known, full) && Shaped(known, u) && j <= |known.fields|
    requires |w| == |p.fields| == |full.fields|
  {
    && |q.fields| == |full.fields| && q.unknown == p.unknown
    && (CanonicalFields(R, known, u, j)
        <==> forall k :: j <= k < |known.fields| ==> q.fields[At(known, full, k)] == w[At(known, full, k)])
    && (forall i :: 0 <= i < |full.fields| && (forall k :: j <= k < |known.fields| ==> At(known, full, k) != i)
          ==> q.fields[i] == p.fields[i])
    && (forall id :: id in p.seen ==> id in q.seen)
    && (forall k :: j <= k < |known.fields| && !Skipped(known, k, u.fields[k]) ==> known.fields[k].id in q.seen)
    && (forall id :: id in q.seen ==> id in p.seen || Knows(known, id))
  }

  /** Field `j` of the old struct in front of `rest`. */
  lemma FieldBack(R: Schema, S: Schema, full: StructDesc, known: StructDesc, u: Value, w: seq<Value>, hi: nat, j: nat,
                  p: Partial, rest: seq<Byte>)
    returns (x: Option<Read<Value>>)
    requires Older(known, full) && Shaped(known, u) && RelatedFields(R, S, full, known, u.fields, w, hi)
    requires j < |known.fields| && |p.fields| == |full.fields| && !Skipped(known, j, u.fields[j])
    ensures var e := EncodeField(R, known, j, u.fields[j]);
      ReadFields(S, full, e + rest, p)
      == if x.None? then None
         else Then(Read(WithField(full, p, At(known, full, j), x.value.val), |e|, x.value.cost),
                   ReadFields(S, full, rest, WithField(full, p, At(known, full, j), x.value.val)))
    ensures x.None? ==> !CanonicalField(R, known, j, u.fields[j])
    ensures x.Some? ==>
      && (CanonicalField(R, known, j, u.fields[j]) <==> x.value.val == w[At(known, full, j)])
      && (CanonicalField(R, known, j, u.fields[j]) ==>
           var c := FieldCost(R, known, j, u.fields[j]); c <= x.value.cost <= Max(c, hi))
  {
    hide Older, ReadFields, ReadField, ReadFieldValue, EncodeValue, Canonical, Cost, Skipped, Alike, Built;
    var f, v := known.fields[j], u.fields[j];
    var c := EncodeValue(R, f.typ, v);
    x := ReadFieldValue(S, f, c + rest);
    assert RelatedField(R, S, known, j, v, w[At(known, full, j)], hi);
    assert FieldBackBefore(R, S, f, v, w[At(known, full, j)], hi, rest);
    Assoc(FieldHeader(f), c, rest);
    HeaderReads(S, full, At(known, full, j), c + rest, p);
    WireTypeIsNotStop(f.typ);
    FieldsStep(S, full, FieldHeader(f) + c, rest, p);
  }

  lemma SkippedIsDefault(known: StructDesc, j: nat, u: Value, w: Value)
    requires j < |known.fields| && Skipped(known, j, u) && Alike(known.fields[j].typ, u, w)
    ensures u == w
  {
  }

  lemma FieldsFrom(R: Schema, known: StructDesc, u: Value, j: nat, t: seq<Byte>)
    requires Shaped(known, u) && j <= |known.fields|
    ensures j == |known.fields| ==>
      EncodeFields(R, known, u, j) == [] && CanonicalFields(R, known, u, j) && FieldsCost(R, known, u, j) == 0
    ensures j < |known.fields| ==>
      && EncodeFields(R, known, u, j) + t
         == EncodeField(R, known, j, u.fields[j]) + (EncodeFields(R, known, u, j + 1) + t)
      && |EncodeFields(R, known, u, j)| == |EncodeField(R, known, j, u.fields[j])| + |EncodeFields(R, known, u, j + 1)|
      && (CanonicalFields(R, known, u, j)
          <==> CanonicalField(R, known, j, u.fields[j]) && CanonicalFields(R, known, u, j + 1))
      && FieldsCost(R, known, u, j) == Max(FieldCost(R, known, j, u.fields[j]), FieldsCost(R, known, u, j + 1))
  {
    hide EncodeField, CanonicalField, FieldCost, Built;
    if j < |known.fields| {
      Assoc(EncodeField(R, known, j, u.fields[j]), EncodeFields(R, known, u, j + 1), t);
    }
  }

  lemma TakenNothing(R: Schema, full: StructDesc, known: StructDesc, u: Value, w: seq<Value>, p: Partial)
    requires Older(known, full) && Shaped(known, u) && |w| == |p.fields| == |full.fields|
    ensures TakenOver(R, full, known, u, w, |known.fields|, p, p)
  {
  }

  /** A field that is left out keeps the default, which is the same on both sides. */
  lemma TakenDefault(R: Schema, full: StructDesc, known: StructDesc, u: Value, w: seq<Value>, j: nat, p: Partial,
                     q: Partial)
    requires Older(known, full) && Shaped(known, u) && |w| == |p.fields| == |full.fields| && j < |known.fields|
    requires Skipped(known, j, u.fields[j]) && Alike(known.fields[j].typ, u.fields[j], w[At(known, full, j)])
    requires p.fields[At(known, full, j)] == full.init[At(known, full, j)]
    requires TakenOver(R, full, known, u, w, j + 1, p, q)
    ensures TakenOver(R, full, known, u, w, j, p, q)
  {
    hide Older, Knows, At, CanonicalFields, Alike, Skipped, Canonical, Built;
    PositionsDiffer(known, full, j);
    FieldsFrom(R, known, u, j, []);
    SkippedIsDefault(known, j, u.fields[j], w[At(known, full, j)]);
    assert q.fields[At(known, full, j)] == p.fields[At(known, full, j)];
  }

  lemma TakenRead(R: Schema, full: StructDesc, known: StructDesc, u: Value, w: seq<Value>, j: nat, p: Partial, x: Value,
                  q: Partial)
    requires Older(known, full) && Shaped(known, u) && |w| == |p.fields| == |full.fields| && j < |known.fields|
    requires CanonicalField(R, known, j, u.fields[j]) <==> x == w[At(known, full, j)]
    requires TakenOver(R, full, known, u, w, j + 1, WithField(full, p, At(known, full, j), x), q)
    ensures TakenOver(R, full, known, u, w, j, p, q) && |q.fields| == |full.fields|
  {
    hide Older, Knows, At, CanonicalFields, CanonicalField, Skipped, Built;
    PositionsDiffer(known, full, j);
    FieldsFrom(R, known, u, j, []);
    assert q.fields[At(known, full, j)] == x;
  }

  lemma StaysDefault(full: StructDesc, known: StructDesc, j: nat, p: Partial, x: Value)
    requires Older(known, full) && j < |known.fields| && |p.fields| == |full.fields|
    requires forall k :: j <= k < |known.fields| ==> p.fields[At(known, full, k)] == full.init[At(known, full, k)]
    ensures var p1 := WithField(full, p, At(known, full, j), x);
      forall k :: j < k < |known.fields| ==> p1.fields[At(known, full, k)] == full.init[At(known, full, k)]
  {
    hide Older, At, Built;
    PositionsDiffer(known, full, j);
  }

  lemma RelatedShape(R: Schema, S: Schema, full: StructDesc, known: StructDesc, us: seq<Value>, ws: seq<Value>, hi: nat)
    requires Older(known, full) && RelatedFields(R, S, full, known, us, ws, hi)
    ensures |us| == |known.fields| && |ws| == |full.fields|
    ensures forall j :: 0 <= j < |us| ==> Alike(known.fields[j].typ, us[j], ws[At(known, full, j)])
  {
    hide Alike, At, Older, Built;
    forall j | 0 <= j < |us| ensures Alike(known.fields[j].typ, us[j], ws[At(known, full, j)]) {
      assert RelatedField(R, S, known, j, us[j], ws[At(known, full, j)], hi);
    }
  }

  /** From field `j` on; `q` is the state behind them, unless one of them is refused. */
  lemma {:induction false} KnownBack(R: Schema, S: Schema, full: StructDesc, known: StructDesc, u: Value, w: seq<Value>,
                                     hi: nat, j: nat, p: Partial, t: seq<Byte>)
    returns (ok: bool, q: Partial, c: nat)
    requires Older(known, full) && Shaped(known, u) && RelatedFields(R, S, full, known, u.fields, w, hi)
    requires j <= |known.fields| && |p.fields| == |full.fields|
    requires forall k :: j <= k < |known.fields| ==> p.fields[At(known, full, k)] == full.init[At(known, full, k)]
    ensures ok ==> TakenOver(R, full, known, u, w, j, p, q)
    ensures ReadFields(S, full, EncodeFields(R, known, u, j) + t, p)
      == if ok then Then(Read(q, |EncodeFields(R, known, u, j)|, c), ReadFields(S, full, t, q)) else None
    ensures CanonicalFields(R, known, u, j) ==>
      ok && FieldsCost(R, known, u, j) <= c <= Max(FieldsCost(R, known, u, j), hi)
    decreases |known.fields| - j
  {
    hide Older, Knows, At, ReadFields, EncodeField, EncodeFields, CanonicalField, CanonicalFields, FieldCost;
    hide FieldsCost, Skipped, RelatedFields, WithField, TakenOver, Alike, Built;
    FieldsFrom(R, known, u, j, t);
    RelatedShape(R, S, full, known, u.fields, w, hi);
    if j == |known.fields| {
      TakenNothing(R, full, known, u, w, p);
      ok, q, c := true, p, 0;
      assert [] + t == t;
      ThenNothing(q, ReadFields(S, full, t, q));
      return;
    }
    var v := u.fields[j];
    var rest := EncodeFields(R, known, u, j + 1) + t;
    if Skipped(known, j, v) {
      ok, q, c := KnownBack(R, S, full, known, u, w, hi, j + 1, p, t);
      LeftOut(R, known, j, v);
      EmptySides(rest);
      if ok {
        TakenDefault(R, full, known, u, w, j, p, q);
      }
    } else {
      var x := FieldBack(R, S, full, known, u, w, hi, j, p, rest);
      if x.None? {
        ok, q, c := false, p, 0;
      } else {
        var p1 := WithField(full, p, At(known, full, j), x.value.val);
        StaysDefault(full, known, j, p, x.value.val);
        ok, q, c := KnownBack(R, S, full, known, u, w, hi, j + 1, p1, t);
        if ok {
          TakenRead(R, full, known, u, w, j, p, x.value.val, q);
          ThenTwice(p1, q, |EncodeField(R, known, j, v)|, |EncodeFields(R, known, u, j + 1)|, x.value.cost, c,
                    ReadFields(S, full, t, q));
          c := Max(x.value.cost, c);
        }
      }
    }
  }

  lemma LeftOut(R: Schema, known: StructDesc, j: nat, v: Value)
    requires j < |known.fields| && Skipped(known, j, v)
    ensures EncodeField(R, known, j, v) == [] && FieldCost(R, known, j, v) == 0
  {
    hide Skipped;
  }

  lemma ThenTwice<A, B, C>(a: A, b: B, n1: nat, n2: nat, c1: nat, c2: nat, r: Option<Read<C>>)
    ensures Then(Read(a, n1, c1), Then(Read(b, n2, c2), r)) == Then(Read(b, n1 + n2, Max(c1, c2)), r)
  {
  }


  // ----- A struct

  /** What the old struct holds and passes through after a message, beside the new one. */
  ghost predicate ReadTogether(R: Schema, S: Schema, full: StructDesc, known: StructDesc, b: seq<Byte>, u: Value,
                               w: Value, hi: nat) {
    && Older(known, full)
    && ReadFields(S, full, b, Partial(full.init, [], {})).Some?
    && ReadFields(R, known, b, Partial(known.init, [], {})).Some?
    && var pf := ReadFields(S, full, b, Partial(full.init, [], {})).value;
       var pk := ReadFields(R, known, b, Partial(known.init, [], {})).value;
       && Complete(full, pf.val) && pf.cost <= hi
       && w == Struct(pf.val.fields, pf.val.unknown) && u == Struct(pk.val.fields, pk.val.unknown)
       && RelatedFields(R, S, full, known, u.fields, w.fields, hi)
  }

  lemma AsManyDefaults(sd: StructDesc)
    ensures |sd.init| == |sd.fields|
  {
  }

  /** The known fields are back as `q`; the bytes passed through bring the others. */
  lemma RestBack(R: Schema, S: Schema, full: StructDesc, known: StructDesc, b: seq<Byte>, u: Value, w: Value, hi: nat,
                 q: Partial, s: seq<Byte>)
    returns (r: Partial, c: nat)
    requires ReadTogether(R, S, full, known, b, u, w, hi) && Shaped(known, u) && |w.fields| == |full.fields|
    requires TakenOver(R, full, known, u, w.fields, 0, Partial(full.init, [], {}), q)
    ensures |q.fields| == |full.fields| == |r.fields|
    ensures ReadFields(S, full, u.unknown + ([STOP] + s), q) == Some(Read(r, |u.unknown| + 1, c)) && c <= hi
    ensures Complete(full, r) && r.unknown == w.unknown
    ensures r.fields == w.fields <==> CanonicalFields(R, known, u, 0)
  {
    hide Older, ReadFields, Replay, ReplayCost, Complete, RelatedFields, TakenOver, Passes, Rest, CanonicalFields;
    hide Skipped, Built;
    AsManyDefaults(full);
    AsManyDefaults(known);
    var pf0, pk0 := Partial(full.init, [], {}), Partial(known.init, [], {});
    var pf, pk := ReadFields(S, full, b, pf0).value, ReadFields(R, known, b, pk0).value;
    TakenStart(R, full, known, u, w.fields, q);
    StartPasses(S, full, known, q);
    FieldsPass(R, S, full, known, b, pf0, pk0, q);
    NothingToReplay(S, full);
    PassesRest(S, full, known, pf.val, pk.val, q);
    var y := Replay(S, full, u.unknown, q).value;
    ReplayThenFields(S, full, u.unknown, [STOP] + s, q);
    StopReads(S, full, s, y.val);
    ReplayCostIs(S, full, u.unknown, q);
    CompleteAgain(full, known, u, pf.val, q, y.val);
    SameFields(R, full, known, u, w.fields, pf.val, q, y.val);
    r, c := y.val, y.cost;
  }

  lemma TakenStart(R: Schema, full: StructDesc, known: StructDesc, u: Value, w: seq<Value>, q: Partial)
    requires Older(known, full) && Shaped(known, u) && |w| == |full.fields|
    requires TakenOver(R, full, known, u, w, 0, Partial(full.init, [], {}), q)
    ensures |q.fields| == |full.fields| && q.unknown == []
    ensures forall i :: 0 <= i < |full.fields| && !Knows(known, full.fields[i].id) ==> q.fields[i] == full.init[i]
    ensures forall k :: 0 <= k < |known.fields| && !Skipped(known, k, u.fields[k]) ==> known.fields[k].id in q.seen
  {
    hide Older, At, CanonicalFields, Skipped, Knows, Built;
    forall i | 0 <= i < |full.fields| && !Knows(known, full.fields[i].id)
      ensures forall k :: 0 <= k < |known.fields| ==> At(known, full, k) != i
    {
      UnknownIsNowhere(known, full, i);
    }
  }

  lemma StartPasses(S: Schema, full: StructDesc, known: StructDesc, start: Partial)
    requires Older(known, full) && |start.fields| == |full.fields| && start.unknown == []
    requires forall i :: 0 <= i < |full.fields| && !Knows(known, full.fields[i].id) ==> start.fields[i] == full.init[i]
    ensures Passes(S, full, known, Partial(full.init, [], {}), Partial(known.init, [], {}), start)
  {
    StartInStep(S, full, known, start);
  }

  lemma PassesRest(S: Schema, full: StructDesc, known: StructDesc, pf: Partial, pk: Partial, start: Partial)
    requires Passes(S, full, known, pf, pk, start)
    ensures |pf.fields| == |full.fields| == |start.fields| && Replay(S, full, pk.unknown, start).Some?
    ensures Rest(full, known, pf, start, Replay(S, full, pk.unknown, start).value.val)
    ensures |Replay(S, full, pk.unknown, start).value.val.fields| == |full.fields|
  {
  }

  /** The fields are the same again if and only if the known ones are. */
  lemma SameFields(R: Schema, full: StructDesc, known: StructDesc, u: Value, w: seq<Value>, pf: Partial, q: Partial,
                   y: Partial)
    requires Older(known, full) && Shaped(known, u) && |w| == |full.fields| == |q.fields| && pf.fields == w
    requires TakenOver(R, full, known, u, w, 0, Partial(full.init, [], {}), q)
    requires |pf.fields| == |full.fields| && Rest(full, known, pf, q, y)
    ensures y.fields == w <==> CanonicalFields(R, known, u, 0)
  {
    hide CanonicalFields, Skipped;
    forall k | 0 <= k < |known.fields| ensures y.fields[At(known, full, k)] == q.fields[At(known, full, k)] {
      PositionsDiffer(known, full, k);
    }
    if CanonicalFields(R, known, u, 0) {
      forall i | 0 <= i < |full.fields| ensures y.fields[i] == w[i] {
        if Knows(known, full.fields[i].id) {
          AtIsField(known, full, i);
        }
      }
      assert y.fields == w;
    }
  }

  /** A struct comes back if and only if all its known fields do. */
  lemma StructBack(R: Schema, S: Schema, full: StructDesc, known: StructDesc, b: seq<Byte>, u: Value, w: Value, hi: nat,
                   s: seq<Byte>)
    requires ReadTogether(R, S, full, known, b, u, w, hi) && Shaped(known, u) && |w.fields| == |full.fields|
    ensures Back(ReadStruct(S, full, EncodeStruct(R, known, u) + s, Fresh(full)), w, |EncodeStruct(R, known, u)|,
                 CanonicalFields(R, known, u, 0), StructCost(R, known, u), 1 + hi)
  {
    hide ReadTogether, ReadFields, EncodeFields, CanonicalFields, FieldsCost, TakenOver, Complete, RelatedFields, Built;
    var e := EncodeFields(R, known, u, 0);
    var t := u.unknown + ([STOP] + s);
    var p0 := Partial(full.init, [], {});
    AsManyDefaults(full);
    TogetherParts(R, S, full, known, b, u, w, hi);
    assert EncodeStruct(R, known, u) + s == e + t;
    var ok, q, c := KnownBack(R, S, full, known, u, w.fields, hi, 0, p0, t);
    if ok {
      var r, d := RestBack(R, S, full, known, b, u, w, hi, q, s);
      assert ReadFields(S, full, e + t, p0) == Some(Read(r, |e| + |u.unknown| + 1, Max(c, d)));
    }
  }

  lemma TogetherParts(R: Schema, S: Schema, full: StructDesc, known: StructDesc, b: seq<Byte>, u: Value, w: Value,
                      hi: nat)
    requires ReadTogether(R, S, full, known, b, u, w, hi)
    ensures Older(known, full) && known.hasUnknown && u.Struct? && w.Struct?
    ensures RelatedFields(R, S, full, known, u.fields, w.fields, hi)
  {
    hide RelatedFields, Complete, ReadFields;
  }
}
