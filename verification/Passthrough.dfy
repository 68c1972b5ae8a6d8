/**
  Unknown fields survive a hop through an older schema: a message decoded with some of its
  fields unknown, encoded again and decoded with the full schema gives the same struct.
 */
module Passthrough {
  import opened Common
  import opened BigEndian
  import opened Schema
  import opened Skip
  import opened Reference
  import opened SelfDelimiting
  import opened Wire
  import opened ReadingBack
  import opened TypedReading
  import opened Decoding
  import Codec

  /** `known` has some of the fields of `full`, with the same defaults, and keeps the rest as bytes. */
  ghost predicate Older(known: StructDesc, full: StructDesc) {
    && known.hasUnknown
    && (forall j {:trigger known.fields[j]} :: 0 <= j < |known.fields| ==>
      exists i :: 0 <= i < |full.fields| && full.fields[i] == known.fields[j] && full.init[i] == known.init[j])
  }

  /** The position in the full struct of a field of the old one. */
  function At(known: StructDesc, full: StructDesc, j: nat): (i: nat)
    requires Older(known, full) && j < |known.fields|
    ensures i < |full.fields| && full.fields[i] == known.fields[j] && full.init[i] == known.init[j]
  {
    assert known.fields[j] == known.fields[j];
    var r := GetField(full, known.fields[j].id);
    assert r.Some?;
    r.value
  }

  predicate Knows(known: StructDesc, id: nat) {
    GetField(known, id).Some?
  }

  // ----- Replaying collected bytes

  /** Reads `u`, which must consist of whole fields. */
  function Replay(S: Schema, sd: StructDesc, u: seq<Byte>, p: Partial): (r: Option<Read<Partial>>)
    requires |p.fields| == |sd.fields|
    ensures r.Some? ==> r.value.n == |u| && |r.value.val.fields| == |sd.fields|
    decreases |u|
  {
    if u == [] then Some(Read(p, 0, 0))
    else if u[0] == STOP then None
    else
      match ReadField(S, sd, u, p)
      case None => None
      case Some(h) => Then(h, Replay(S, sd, u[h.n..], h.val))
  }

  /** A field read at the front of `f` is read the same in front of anything. */
  lemma FieldInFront(S: Schema, sd: StructDesc, f: seq<Byte>, t: seq<Byte>, p: Partial)
    requires |p.fields| == |sd.fields| && ReadField(S, sd, f, p).Some?
    ensures ReadField(S, sd, f + t, p) == ReadField(S, sd, f, p)
  {
    hide Built, ReadField;
    assert Agree(f, f + t, |f|);
    ReadFieldLocal(S, sd, f, f + t, |f|, p);
  }

  lemma {:induction false} ReplayThenFields(S: Schema, sd: StructDesc, u: seq<Byte>, t: seq<Byte>, p: Partial)
    requires |p.fields| == |sd.fields| && Replay(S, sd, u, p).Some?
    ensures var q := Replay(S, sd, u, p).value;
      ReadFields(S, sd, u + t, p) == Then(q, ReadFields(S, sd, t, q.val))
    decreases |u|
  {
    hide Built, ReadField, ReadFields;
    if u == [] {
      assert u + t == t;
      ThenNothing(p, ReadFields(S, sd, t, p));
    } else {
      var h := ReadField(S, sd, u, p).value;
      assert u + t == u[..h.n] + (u[h.n..] + t);
      FieldInFront(S, sd, u, t, p);
      ReplayThenFields(S, sd, u[h.n..], t, h.val);
      FieldsStep(S, sd, u[..h.n], u[h.n..] + t, p);
    }
  }

  lemma ThenNothing<A, B>(v: A, r: Option<Read<B>>)
    ensures Then(Read(v, 0, 0), r) == r
  {
  }

  lemma ThenIsSome<A, B>(h: Read<A>, r: Option<Read<B>>)
    ensures Then(h, r).Some? <==> r.Some?
    ensures r.Some? ==> Then(h, r).value.val == r.value.val && Then(h, r).value.n == h.n + r.value.n
  {
  }

  lemma ThenAssoc<A, B, C>(h: Read<A>, q: Read<B>, r: Option<Read<C>>)
    ensures Then(Then(h, Some(q)).value, r) == Then(h, Then(q, r))
  {
  }

  lemma {:induction false} ReplayAppend(S: Schema, sd: StructDesc, u: seq<Byte>, f: seq<Byte>, p: Partial)
    requires |p.fields| == |sd.fields| && Replay(S, sd, u, p).Some?
    requires f != [] && f[0] != STOP
    requires var q := Replay(S, sd, u, p).value.val;
      ReadField(S, sd, f, q).Some? && ReadField(S, sd, f, q).value.n == |f|
    ensures var q := Replay(S, sd, u, p).value;
      Replay(S, sd, u + f, p) == Then(q, ReadField(S, sd, f, q.val))
    decreases |u|
  {
    hide Built, ReadField;
    if u == [] {
      assert u + f == f && f[|f|..] == [];
    } else {
      hide Then;
      var h := ReadField(S, sd, u, p).value;
      FieldInFront(S, sd, u, f, p);
      assert (u + f)[h.n..] == u[h.n..] + f;
      ThenIsSome(h, Replay(S, sd, u[h.n..], h.val));
      ReplayAppend(S, sd, u[h.n..], f, h.val);
      var q := Replay(S, sd, u[h.n..], h.val).value;
      ThenAssoc(h, q, ReadField(S, sd, f, q.val));
    }
  }

  // ----- Reading with both schemas side by side

  /**
    The old struct has seen those of the fields seen that it knows, and its unknown bytes,
    replayed with the full schema on top of `start`, give the rest.
   */
  ghost predicate Passes(S: Schema, full: StructDesc, known: StructDesc, pf: Partial, pk: Partial, start: Partial) {
    && Older(known, full)
    && |pf.fields| == |full.fields| == |start.fields| && |pk.fields| == |known.fields|
    && (forall id :: id in pk.seen <==> id in pf.seen && Knows(known, id))
    && Replay(S, full, pk.unknown, start).Some?
    && Rest(full, known, pf, start, Replay(S, full, pk.unknown, start).value.val)
  }

  /** Besides, the old struct holds what the full one holds in the fields it knows. */
  ghost predicate InStep(S: Schema, full: StructDesc, known: StructDesc, pf: Partial, pk: Partial, start: Partial) {
    && Passes(S, full, known, pf, pk, start)
    && (forall j :: 0 <= j < |known.fields| ==> pk.fields[j] == pf.fields[At(known, full, j)])
  }

  ghost predicate Rest(full: StructDesc, known: StructDesc, pf: Partial, start: Partial, q: Partial)
    requires |pf.fields| == |full.fields| == |start.fields|
  {
    && |q.fields| == |full.fields|
    && (forall i :: 0 <= i < |full.fields| ==>
          q.fields[i] == if Knows(known, full.fields[i].id) then start.fields[i] else pf.fields[i])
    && q.unknown == pf.unknown
    && (forall id :: id in q.seen <==> id in start.seen || (id in pf.seen && !Knows(known, id)))
  }

  lemma AtIsField(known: StructDesc, full: StructDesc, i: nat)
    requires Older(known, full) && i < |full.fields| && Knows(known, full.fields[i].id)
    ensures var j := GetField(known, full.fields[i].id).value; j < |known.fields| && At(known, full, j) == i
  {
    var j := GetField(known, full.fields[i].id).value;
    assert full.fields[At(known, full, j)].id == full.fields[i].id;
  }

  /** A field that the old schema reads, the full one reads too. */
  lemma KnownToBoth(known: StructDesc, full: StructDesc, wt: Byte, id: nat)
    requires Older(known, full)
    ensures var k := KnownField(known, wt, id);
      var f := KnownField(full, wt, id);
      && (k.Some? ==> f == Some(At(known, full, k.value)) && Knows(known, id))
      && (k.None? && f.Some? ==> !Knows(known, id))
      && known.hasUnknown
  {
    var k := KnownField(known, wt, id);
    var f := KnownField(full, wt, id);
    if k.Some? {
      KnownFieldOf(full, At(known, full, k.value));
    } else if f.Some? && Knows(known, id) {
      AtIsField(known, full, f.value);
    }
  }

  /** What a field costs does not depend on what was read before. */
  lemma FieldCostSame(S: Schema, sd: StructDesc, b: seq<Byte>, p: Partial, q: Partial)
    requires |p.fields| == |sd.fields| == |q.fields|
    ensures var x, y := ReadField(S, sd, b, p), ReadField(S, sd, b, q);
      (x.Some? <==> y.Some?) && (x.Some? ==> x.value.n == y.value.n && x.value.cost == y.value.cost)
  {
    hide ReadFieldValue, SkipValue, KnownField, Get16, Built;
  }

  lemma {:induction false} ReplayCostSame(S: Schema, sd: StructDesc, u: seq<Byte>, p: Partial, q: Partial)
    requires |p.fields| == |sd.fields| == |q.fields|
    ensures var x, y := Replay(S, sd, u, p), Replay(S, sd, u, q);
      (x.Some? <==> y.Some?) && (x.Some? ==> x.value.cost == y.value.cost)
    decreases |u|
  {
    hide ReadField, Built;
    if u != [] && u[0] != STOP {
      FieldCostSame(S, sd, u, p, q);
      var x, y := ReadField(S, sd, u, p), ReadField(S, sd, u, q);
      if x.Some? {
        ReplayCostSame(S, sd, u[x.value.n..], x.value.val, y.value.val);
      }
    }
  }

  /** The depth budget that collected bytes take when they are read with the schema `sd`. */
  function ReplayCost(S: Schema, sd: StructDesc, u: seq<Byte>): nat {
    match Replay(S, sd, u, Partial(sd.init, [], {}))
    case None => 0
    case Some(r) => r.cost
  }

  lemma ReplayCostIs(S: Schema, sd: StructDesc, u: seq<Byte>, p: Partial)
    requires |p.fields| == |sd.fields| && Replay(S, sd, u, p).Some?
    ensures Replay(S, sd, u, p).value.cost == ReplayCost(S, sd, u)
  {
    hide Replay;
    ReplayCostSame(S, sd, u, p, Partial(sd.init, [], {}));
  }

  /** Replaying one more field that has just been read. */
  lemma ReplayOne(S: Schema, sd: StructDesc, u: seq<Byte>, start: Partial, b: seq<Byte>)
    requires |start.fields| == |sd.fields| && Replay(S, sd, u, start).Some?
    requires b != [] && b[0] != STOP && ReadField(S, sd, b, Replay(S, sd, u, start).value.val).Some?
    ensures var h := ReadField(S, sd, b, Replay(S, sd, u, start).value.val).value;
      var r := Replay(S, sd, u + b[..h.n], start);
      r.Some? && r.value.val == h.val && r.value.cost == Max(Replay(S, sd, u, start).value.cost, h.cost)
  {
    hide Built, ReadField, Replay;
    var q := Replay(S, sd, u, start).value.val;
    var h := ReadField(S, sd, b, q).value;
    assert Agree(b, b[..h.n], h.n);
    ReadFieldLocal(S, sd, b, b[..h.n], h.n, q);
    ReplayAppend(S, sd, u, b[..h.n], start);
  }

  /** The state after field `i` has been read as `v`. */
  function WithField(sd: StructDesc, p: Partial, i: nat, v: Value): (q: Partial)
    requires |p.fields| == |sd.fields| && i < |sd.fields|
    ensures |q.fields| == |sd.fields|
  {
    p.(fields := p.fields[i := v], seen := p.seen + {sd.fields[i].id})
  }

  lemma RestAfterUnknown(full: StructDesc, known: StructDesc, pf: Partial, start: Partial, q: Partial, i: nat, v: Value)
    requires |pf.fields| == |full.fields| == |start.fields| && Rest(full, known, pf, start, q)
    requires i < |full.fields| && !Knows(known, full.fields[i].id)
    ensures Rest(full, known, WithField(full, pf, i, v), start, WithField(full, q, i, v))
  {
    hide Built, Knows;
  }

  lemma RestAfterKnown(full: StructDesc, known: StructDesc, pf: Partial, start: Partial, q: Partial, i: nat, v: Value)
    requires |pf.fields| == |full.fields| == |start.fields| && Rest(full, known, pf, start, q)
    requires i < |full.fields| && Knows(known, full.fields[i].id)
    ensures Rest(full, known, WithField(full, pf, i, v), start, q)
  {
    hide Built, Knows;
  }

  /**
    One field read on both sides, by the old struct with a schema `R` of its own: what the old
    struct passes through costs no more to replay than it did to read.
   */
  lemma FieldPasses(R: Schema, S: Schema, full: StructDesc, known: StructDesc, b: seq<Byte>, pf: Partial, pk: Partial,
                    start: Partial)
    requires Passes(S, full, known, pf, pk, start)
    requires b != [] && b[0] != STOP && ReadField(S, full, b, pf).Some? && ReadField(R, known, b, pk).Some?
    ensures var hf := ReadField(S, full, b, pf).value;
      var hk := ReadField(R, known, b, pk).value;
      && hk.n == hf.n && Passes(S, full, known, hf.val, hk.val, start)
      && ReplayCost(S, full, hk.val.unknown) <= Max(ReplayCost(S, full, pk.unknown), hf.cost)
  {
    hide Built, Older, Knows, At, ReadFieldValue, SkipValue, Get16, KnownField, Replay, ReplayCost, Rest;
    var wt, id := b[0], Get16(b[1..]);
    KnownToBoth(known, full, wt, id);
    ReadFieldSkips(S, full, b, pf);
    ReadFieldSkips(R, known, b, pk);
    var q := Replay(S, full, pk.unknown, start).value.val;
    var hf := ReadField(S, full, b, pf).value;
    match KnownField(known, wt, id)
    case Some(j) =>
      RestAfterKnown(full, known, pf, start, q, At(known, full, j),
                     ReadFieldValue(S, known.fields[j], b[3..]).value.val);
    case None =>
      ReplayOnePasses(S, full, known, b, pf, pk, start);
      match KnownField(full, wt, id)
      case Some(i) =>
        RestAfterUnknown(full, known, pf, start, q, i, ReadFieldValue(S, full.fields[i], b[3..]).value.val);
      case None =>
        RestAfterBytes(full, known, pf, start, q, hf.n, b);
  }

  /** A field that the old struct collects, replayed behind the others. */
  lemma ReplayOnePasses(S: Schema, full: StructDesc, known: StructDesc, b: seq<Byte>, pf: Partial, pk: Partial,
                        start: Partial)
    requires Passes(S, full, known, pf, pk, start)
    requires b != [] && b[0] != STOP && ReadField(S, full, b, pf).Some?
    ensures var h := ReadField(S, full, b, pf).value;
      var q := Replay(S, full, pk.unknown, start).value.val;
      var u := pk.unknown + b[..h.n];
      && |q.fields| == |full.fields|
      && ReadField(S, full, b, q).Some? && ReadField(S, full, b, q).value.n == h.n
      && Replay(S, full, u, start).Some?
      && Replay(S, full, u, start).value.val == ReadField(S, full, b, q).value.val
      && ReplayCost(S, full, u) <= Max(ReplayCost(S, full, pk.unknown), h.cost)
  {
    hide Built, Knows, ReadField, Replay, ReplayCost, Older;
    var q := Replay(S, full, pk.unknown, start).value.val;
    FieldCostSame(S, full, b, pf, q);
    ReplayOne(S, full, pk.unknown, start, b);
    ReplayCostIs(S, full, pk.unknown, start);
    ReplayCostIs(S, full, pk.unknown + b[..ReadField(S, full, b, pf).value.n], start);
  }

  lemma {:induction false} FieldsPass(R: Schema, S: Schema, full: StructDesc, known: StructDesc, b: seq<Byte>,
                                      pf: Partial, pk: Partial, start: Partial)
    requires Passes(S, full, known, pf, pk, start) && ReadFields(S, full, b, pf).Some?
    requires |pk.fields| == |known.fields| && |pf.fields| == |full.fields| && ReadFields(R, known, b, pk).Some?
    ensures var rf := ReadFields(S, full, b, pf).value;
      var rk := ReadFields(R, known, b, pk).value;
      && rk.n == rf.n && Passes(S, full, known, rf.val, rk.val, start)
      && ReplayCost(S, full, rk.val.unknown) <= Max(ReplayCost(S, full, pk.unknown), rf.cost)
    decreases |b|
  {
    hide Built, ReadField, Passes, ReplayCost;
    if b[0] != STOP {
      FieldPasses(R, S, full, known, b, pf, pk, start);
      var hf := ReadField(S, full, b, pf).value;
      var hk := ReadField(R, known, b, pk).value;
      FieldsPass(R, S, full, known, b[hf.n..], hf.val, hk.val, start);
    }
  }

  lemma NothingToReplay(S: Schema, sd: StructDesc)
    ensures ReplayCost(S, sd, []) == 0
  {
  }

  /** One field read with both structs. */
  lemma FieldInStep(S: Schema, full: StructDesc, known: StructDesc, b: seq<Byte>, pf: Partial, pk: Partial,
                    start: Partial)
    requires InStep(S, full, known, pf, pk, start)
    requires b != [] && b[0] != STOP && ReadField(S, full, b, pf).Some?
    ensures var hf := ReadField(S, full, b, pf).value;
      var hk := ReadField(S, known, b, pk);
      hk.Some? && hk.value.n == hf.n && hk.value.cost <= hf.cost && InStep(S, full, known, hf.val, hk.value.val, start)
  {
    hide Built, Older, Knows, At, ReadFieldValue, SkipValue, Get16, KnownField, Passes;
    InStepShape(S, full, known, pf, pk, start);
    KnownToBoth(known, full, b[0], Get16(b[1..]));
    ReadFieldSkips(S, full, b, pf);
    match KnownField(known, b[0], Get16(b[1..]))
    case Some(j) =>
      PositionsDiffer(known, full, j);
      FieldPasses(S, S, full, known, b, pf, pk, start);
    case None =>
      if KnownField(full, b[0], Get16(b[1..])).Some? {
        UnknownIsNowhere(known, full, KnownField(full, b[0], Get16(b[1..])).value);
      }
      FieldPasses(S, S, full, known, b, pf, pk, start);
  }

  /** Bytes that neither schema knows are collected on both sides. */
  lemma RestAfterBytes(full: StructDesc, known: StructDesc, pf: Partial, start: Partial, q: Partial, n: nat,
                       b: seq<Byte>)
    requires |pf.fields| == |full.fields| == |start.fields| && Rest(full, known, pf, start, q) && n <= |b|
    ensures Rest(full, known, pf.(unknown := pf.unknown + b[..n]), start, q.(unknown := q.unknown + b[..n]))
  {
    hide Built, Knows;
  }

  lemma PositionsDiffer(known: StructDesc, full: StructDesc, j: nat)
    requires Older(known, full) && j < |known.fields|
    ensures forall k :: 0 <= k < |known.fields| && k != j ==> At(known, full, k) != At(known, full, j)
    ensures Knows(known, full.fields[At(known, full, j)].id)
  {
    forall k | 0 <= k < |known.fields| && k != j ensures At(known, full, k) != At(known, full, j) {
      assert known.fields[k].id != known.fields[j].id;
    }
  }

  lemma UnknownIsNowhere(known: StructDesc, full: StructDesc, i: nat)
    requires Older(known, full) && i < |full.fields| && !Knows(known, full.fields[i].id)
    ensures forall k :: 0 <= k < |known.fields| ==> At(known, full, k) != i
  {
    forall k | 0 <= k < |known.fields| ensures At(known, full, k) != i {
      assert known.fieldIdx[known.fields[k].id] == k;
    }
  }

  lemma {:induction false} FieldsInStep(S: Schema, full: StructDesc, known: StructDesc, b: seq<Byte>, pf: Partial,
          pk: Partial, start: Partial)
    requires InStep(S, full, known, pf, pk, start) && ReadFields(S, full, b, pf).Some?
    ensures var rf := ReadFields(S, full, b, pf).value;
      var rk := ReadFields(S, known, b, pk);
      rk.Some? && rk.value.n == rf.n && rk.value.cost <= rf.cost && InStep(S, full, known, rf.val, rk.value.val, start)
    decreases |b|
  {
    hide Built, ReadField, InStep;
    InStepShape(S, full, known, pf, pk, start);
    if b[0] != STOP {
      FieldInStep(S, full, known, b, pf, pk, start);
      var hf := ReadField(S, full, b, pf).value;
      var hk := ReadField(S, known, b, pk).value;
      FieldsInStep(S, full, known, b[hf.n..], hf.val, hk.val, start);
    }
  }

  lemma InStepShape(S: Schema, full: StructDesc, known: StructDesc, pf: Partial, pk: Partial, start: Partial)
    requires InStep(S, full, known, pf, pk, start)
    ensures |pk.fields| == |known.fields| && |pf.fields| == |full.fields| && Older(known, full)
  {
  }

  // ----- Reading the old struct's own fields with the full schema

  /** The encoded fields of `u` from `j` on, written over `p`. */
  function Applied(S: Schema, full: StructDesc, known: StructDesc, u: Value, j: nat, p: Partial): (q: Partial)
    requires Older(known, full) && Shaped(known, u) && j <= |known.fields| && |p.fields| == |full.fields|
    ensures |q.fields| == |full.fields|
    decreases |known.fields| - j
  {
    if j == |known.fields| then p
    else if Skipped(known, j, u.fields[j]) then Applied(S, full, known, u, j + 1, p)
    else Applied(S, full, known, u, j + 1,
                 WithField(full, p, At(known, full, j), Norm(S, known.fields[j].typ, u.fields[j])))
  }

  lemma {:induction false} AppliedReads(S: Schema, full: StructDesc, known: StructDesc, u: Value, j: nat, p: Partial,
          t: seq<Byte>)
    requires Older(known, full) && TypedStruct(S, known, u) && j <= |known.fields| && |p.fields| == |full.fields|
    ensures var q := Applied(S, full, known, u, j, p);
      ReadFields(S, full, EncodeFields(S, known, u, j) + t, p)
      == if RestorableFields(S, known, u, j)
         then Then(Read(q, |EncodeFields(S, known, u, j)|, FieldsCost(S, known, u, j)), ReadFields(S, full, t, q))
         else None
    decreases |known.fields| - j
  {
    hide Built, Older, At, ReadFields, EncodeField, RestorableField, FieldCost, Skipped, WithField, Norm, Typed;
    if j == |known.fields| {
      assert [] + t == t;
    } else {
      var f := EncodeField(S, known, j, u.fields[j]);
      var rest := EncodeFields(S, known, u, j + 1) + t;
      Assoc(f, EncodeFields(S, known, u, j + 1), t);
      AppliedFieldReads(S, full, known, u, j, p, rest);
      if Skipped(known, j, u.fields[j]) {
        AppliedReads(S, full, known, u, j + 1, p, t);
      } else {
        AppliedReads(S, full, known, u, j + 1,
                     WithField(full, p, At(known, full, j), Norm(S, known.fields[j].typ, u.fields[j])), t);
      }
    }
  }

  lemma AppliedFieldReads(S: Schema, full: StructDesc, known: StructDesc, u: Value, j: nat, p: Partial, rest: seq<Byte>)
    requires Older(known, full) && TypedStruct(S, known, u) && j < |known.fields| && |p.fields| == |full.fields|
    ensures var x := u.fields[j];
      var f := EncodeField(S, known, j, x);
      var q := if Skipped(known, j, x) then p
        else WithField(full, p, At(known, full, j), Norm(S, known.fields[j].typ, x));
      ReadFields(S, full, f + rest, p)
      == if RestorableField(S, known, j, x)
         then Then(Read(q, |f|, FieldCost(S, known, j, x)), ReadFields(S, full, rest, q))
         else None
  {
    hide Built, Older, ReadFields, ReadField, ReadFieldValue, EncodeValue, Norm, Restorable, Cost, Skipped, Typed;
    var x := u.fields[j];
    if Skipped(known, j, x) {
      assert [] + rest == rest;
    } else {
      var i := At(known, full, j);
      var f := known.fields[j];
      var c := EncodeValue(S, f.typ, x);
      Assoc(FieldHeader(f), c, rest);
      HeaderReads(S, full, i, c + rest, p);
      FieldValueReadsBack(S, known, j, x, rest);
      WireTypeIsNotStop(f.typ);
      FieldsStep(S, full, FieldHeader(f) + c, rest, p);
    }
  }

  /** What the known fields leave in the struct. */
  lemma {:induction false} AppliedFields(S: Schema, full: StructDesc, known: StructDesc, u: Value, j: nat, p: Partial)
    requires Older(known, full) && Shaped(known, u) && j <= |known.fields| && |p.fields| == |full.fields|
    ensures var q := Applied(S, full, known, u, j, p);
      && q.unknown == p.unknown
      && (forall k :: j <= k < |known.fields| ==>
            q.fields[At(known, full, k)] == NormField(S, known, k, u.fields[k], p.fields[At(known, full, k)]))
      && (forall i :: 0 <= i < |full.fields| && (forall k :: j <= k < |known.fields| ==> At(known, full, k) != i)
            ==> q.fields[i] == p.fields[i])
      && (forall k :: j <= k < |known.fields| && !Skipped(known, k, u.fields[k]) ==> known.fields[k].id in q.seen)
      && (forall id :: id in p.seen ==> id in q.seen)
      && (forall id :: id in q.seen ==> id in p.seen || Knows(known, id))
    decreases |known.fields| - j
  {
    hide Built, Older, At, Knows, Norm, Skipped;
    if j < |known.fields| {
      PositionsDiffer(known, full, j);
      if Skipped(known, j, u.fields[j]) {
        AppliedFields(S, full, known, u, j + 1, p);
      } else {
        AppliedFields(S, full, known, u, j + 1,
                      WithField(full, p, At(known, full, j), Norm(S, known.fields[j].typ, u.fields[j])));
      }
    }
  }

  // ----- The hop

  /** The struct after the hop: known fields as they are encoded, the others untouched. */
  function AfterHop(S: Schema, full: StructDesc, known: StructDesc, w: Value): (r: Value)
    requires Older(known, full) && Shaped(full, w)
    ensures Shaped(full, r) && r.unknown == w.unknown
  {
    Struct(
      seq(|full.fields|, i requires 0 <= i < |full.fields| =>
        if Knows(known, full.fields[i].id)
        then NormField(S, known, GetField(known, full.fields[i].id).value, w.fields[i], full.init[i])
        else w.fields[i]),
      w.unknown)
  }

  lemma StartInStep(S: Schema, full: StructDesc, known: StructDesc, start: Partial)
    requires Older(known, full) && |start.fields| == |full.fields|
    requires forall i :: 0 <= i < |full.fields| && !Knows(known, full.fields[i].id) ==> start.fields[i] == full.init[i]
    requires start.unknown == []
    ensures InStep(S, full, known, Partial(full.init, [], {}), Partial(known.init, [], {}), start)
  {
  }

  lemma InStepPasses(S: Schema, full: StructDesc, known: StructDesc, pf: Partial, pk: Partial, start: Partial)
    requires InStep(S, full, known, pf, pk, start)
    ensures Passes(S, full, known, pf, pk, start)
  {
  }

  /** What the full schema requires includes what the old one requires. */
  lemma StillComplete(S: Schema, full: StructDesc, known: StructDesc, pf: Partial, pk: Partial, start: Partial)
    requires Passes(S, full, known, pf, pk, start) && Complete(full, pf)
    ensures Complete(known, pk)
  {
    hide Replay, Rest;
    forall k | 0 <= k < |known.required| ensures known.required[k] in pk.seen {
      RequiredIsField(known.fields, k);
      var j :| 0 <= j < |known.fields| && known.fields[j].spec == Required && known.fields[j].id == known.required[k];
      RequiredIsListed(full.fields, At(known, full, j));
      PositionsDiffer(known, full, j);
    }
  }

  /** The old schema accepts what the full one accepts, and agrees on the fields it knows. */
  lemma OldReads(S: Schema, full: StructDesc, known: StructDesc, b: seq<Byte>, start: Partial)
    requires Older(known, full) && ReadStruct(S, full, b, Fresh(full)).Some?
    requires InStep(S, full, known, Partial(full.init, [], {}), Partial(known.init, [], {}), start)
    ensures var w := ReadStruct(S, full, b, Fresh(full)).value;
      var r := ReadStruct(S, known, b, Fresh(known));
      && r.Some? && r.value.n == w.n && r.value.cost <= w.cost && Shaped(known, r.value.val) && Shaped(full, w.val)
      && ReadFields(S, full, b, Partial(full.init, [], {})).Some?
      && ReadFields(S, known, b, Partial(known.init, [], {})).Some?
      && var pf := ReadFields(S, full, b, Partial(full.init, [], {})).value.val;
         var pk := ReadFields(S, known, b, Partial(known.init, [], {})).value.val;
         && InStep(S, full, known, pf, pk, start) && Complete(full, pf)
         && w.val == Struct(pf.fields, pf.unknown) && r.value.val == Struct(pk.fields, pk.unknown)
         && 1 + ReplayCost(S, full, pk.unknown) <= w.cost
  {
    hide ReadFields, InStep, Complete, Older, ReplayCost;
    FieldsInStep(S, full, known, b, Partial(full.init, [], {}), Partial(known.init, [], {}), start);
    InStepPasses(S, full, known, Partial(full.init, [], {}), Partial(known.init, [], {}), start);
    FieldsPass(S, S, full, known, b, Partial(full.init, [], {}), Partial(known.init, [], {}), start);
    NothingToReplay(S, full);
    var pf := ReadFields(S, full, b, Partial(full.init, [], {})).value.val;
    var pk := ReadFields(S, known, b, Partial(known.init, [], {})).value.val;
    InStepPasses(S, full, known, pf, pk, start);
    StillComplete(S, full, known, pf, pk, start);
  }

  /** A required field is never left out. */
  lemma RequiredIsEncoded(sd: StructDesc, j: nat, v: Value)
    requires j < |sd.fields| && sd.fields[j].spec == Required
    ensures !Skipped(sd, j, v)
  {
  }

  lemma RequiredKnown(full: StructDesc, known: StructDesc, k: nat) returns (j: nat)
    requires Older(known, full) && k < |full.required| && Knows(known, full.required[k])
    ensures j < |known.fields| && known.fields[j].id == full.required[k] && known.fields[j].spec == Required
  {
    var id := full.required[k];
    RequiredIsField(full.fields, k);
    var i :| 0 <= i < |full.fields| && full.fields[i].spec == Required && full.fields[i].id == id;
    AtIsField(known, full, i);
    j := GetField(known, id).value;
  }

  /** Everything the full schema requires is seen again after the hop. */
  lemma CompleteAgain(full: StructDesc, known: StructDesc, u: Value, pf: Partial, start: Partial, q: Partial)
    requires Older(known, full) && Shaped(known, u) && |pf.fields| == |full.fields| == |start.fields|
    requires forall k :: 0 <= k < |known.fields| && !Skipped(known, k, u.fields[k]) ==> known.fields[k].id in start.seen
    requires Rest(full, known, pf, start, q) && Complete(full, pf)
    ensures Complete(full, q)
  {
    hide Older, Skipped, At;
    forall k | 0 <= k < |full.required| ensures full.required[k] in q.seen {
      if Knows(known, full.required[k]) {
        var j := RequiredKnown(full, known, k);
        RequiredIsEncoded(known, j, u.fields[j]);
      }
    }
  }

  /** The fields of the second decode: known fields first, then the replayed bytes. */
  lemma SecondFields(S: Schema, full: StructDesc, known: StructDesc, u: Value, s: seq<Byte>)
    requires Older(known, full) && TypedStruct(S, known, u) && known.hasUnknown
    requires Replay(S, full, u.unknown, Applied(S, full, known, u, 0, Partial(full.init, [], {}))).Some?
    ensures var p0 := Partial(full.init, [], {});
      var q := Replay(S, full, u.unknown, Applied(S, full, known, u, 0, p0)).value.val;
      var x := ReadFields(S, full, EncodeStruct(S, known, u) + s, p0);
      && (x.Some? <==> RestorableFields(S, known, u, 0))
      && (x.Some? ==> x.value.val == q && x.value.n == |EncodeStruct(S, known, u)|
                      && x.value.cost == Max(FieldsCost(S, known, u, 0), ReplayCost(S, full, u.unknown)))
  {
    var p0 := Partial(full.init, [], {});
    hide Older, ReadFields, Applied, Replay, ReplayCost, EncodeFields, RestorableFields, TypedStruct, FieldsCost;
    OldShape(S, full, known, u);
    var start := Applied(S, full, known, u, 0, p0);
    var q := Replay(S, full, u.unknown, start).value;
    var t := [STOP] + s;
    assert EncodeStruct(S, known, u) + s == EncodeFields(S, known, u, 0) + (u.unknown + t);
    AppliedReads(S, full, known, u, 0, p0, u.unknown + t);
    ReplayThenFields(S, full, u.unknown, t, start);
    StopReads(S, full, s, q.val);
    ReplayCostIs(S, full, u.unknown, start);
  }

  /** The depth budget of the second decode. */
  function HopCost(S: Schema, full: StructDesc, known: StructDesc, u: Value): nat
    requires Shaped(known, u)
  {
    Max(StructCost(S, known, u), 1 + ReplayCost(S, full, u.unknown))
  }

  /** The second decode. */
  lemma SecondRead(S: Schema, full: StructDesc, known: StructDesc, u: Value, pf: Partial, s: seq<Byte>)
    requires Older(known, full) && TypedStruct(S, known, u) && |pf.fields| == |full.fields|
    requires var start := Applied(S, full, known, u, 0, Partial(full.init, [], {}));
      && Replay(S, full, u.unknown, start).Some?
      && Rest(full, known, pf, start, Replay(S, full, u.unknown, start).value.val) && Complete(full, pf)
    ensures var start := Applied(S, full, known, u, 0, Partial(full.init, [], {}));
      var q := Replay(S, full, u.unknown, start).value.val;
      var e := EncodeStruct(S, known, u);
      var x := ReadStruct(S, full, e + s, Fresh(full));
      (x.Some? <==> RestorableFields(S, known, u, 0)) &&
      (x.Some? ==> x.value.n == |e| && x.value.val == Struct(q.fields, q.unknown)
                   && x.value.cost == HopCost(S, full, known, u))
  {
    hide Older, ReadFields, Applied, Replay, ReplayCost, Rest, Complete, EncodeStruct, RestorableFields;
    hide TypedStruct, FieldsCost;
    OldShape(S, full, known, u);
    var start := Applied(S, full, known, u, 0, Partial(full.init, [], {}));
    AppliedFields(S, full, known, u, 0, Partial(full.init, [], {}));
    CompleteAgain(full, known, u, pf, start, Replay(S, full, u.unknown, start).value.val);
    SecondFields(S, full, known, u, s);
  }

  lemma OldShape(S: Schema, full: StructDesc, known: StructDesc, u: Value)
    requires Older(known, full) && TypedStruct(S, known, u)
    ensures known.hasUnknown && Shaped(known, u)
  {
  }

  lemma StopReads(S: Schema, sd: StructDesc, s: seq<Byte>, p: Partial)
    requires |p.fields| == |sd.fields|
    ensures ReadFields(S, sd, [STOP] + s, p) == Some(Read(p, 1, 0))
  {
  }

  /**
    Unknown fields survive: the old schema accepts every message that the full one accepts;
    what it then encodes decodes with the full schema exactly when no struct with required
    fields is nil among its known fields, and gives the struct of the direct decode, whose
    known fields have gone through one more encoding. The bytes that were passed through cost
    no more than in the direct decode.
   */
  lemma UnknownFieldsSurvive(S: Schema, full: StructDesc, known: StructDesc, b: seq<Byte>, s: seq<Byte>)
    requires SchemaTyped(S) && InitTyped(S, known) && Older(known, full)
    requires ReadStruct(S, full, b, Fresh(full)).Some?
    ensures var w := ReadStruct(S, full, b, Fresh(full)).value;
      var r := ReadStruct(S, known, b, Fresh(known));
      && r.Some? && r.value.n == w.n && r.value.cost <= w.cost
      && Shaped(full, w.val) && TypedStruct(S, known, r.value.val)
      && var e := EncodeStruct(S, known, r.value.val);
         var x := ReadStruct(S, full, e + s, Fresh(full));
         && (x.Some? <==> RestorableFields(S, known, r.value.val, 0))
         && (x.Some? ==> x.value.n == |e| && x.value.val == AfterHop(S, full, known, w.val))
         && (x.Some? ==> x.value.cost == HopCost(S, full, known, r.value.val))
         && 1 + ReplayCost(S, full, r.value.val.unknown) <= w.cost
  {
    hide ReadStruct, Older, Applied, Replay, ReplayCost, StructCost, SchemaTyped, EncodeStruct, RestorableFields;
    hide InStep, NormField;
    var p0 := Partial(full.init, [], {});
    StartInStep(S, full, known, p0);
    OldReads(S, full, known, b, p0);
    FreshTyped(S, known);
    ReadStructTyped(S, known, b, Fresh(known));
    var u := ReadStruct(S, known, b, Fresh(known)).value.val;
    var start := Applied(S, full, known, u, 0, p0);
    AppliedStart(S, full, known, u);
    StartInStep(S, full, known, start);
    OldReads(S, full, known, b, start);
    var pf := ReadFields(S, full, b, p0).value.val;
    var pk := ReadFields(S, known, b, Partial(known.init, [], {})).value.val;
    InStepParts(S, full, known, pf, pk, start);
    SecondRead(S, full, known, u, pf, s);
    HopResult(S, full, known, u, pf, pk, start);
  }

  lemma FreshTyped(S: Schema, sd: StructDesc)
    requires InitTyped(S, sd)
    ensures TypedStruct(S, sd, Fresh(sd))
  {
  }

  lemma InStepParts(S: Schema, full: StructDesc, known: StructDesc, pf: Partial, pk: Partial, start: Partial)
    requires InStep(S, full, known, pf, pk, start)
    ensures Replay(S, full, pk.unknown, start).Some?
    ensures Rest(full, known, pf, start, Replay(S, full, pk.unknown, start).value.val)
  {
  }

  lemma AppliedStart(S: Schema, full: StructDesc, known: StructDesc, u: Value)
    requires Older(known, full) && Shaped(known, u)
    ensures var start := Applied(S, full, known, u, 0, Partial(full.init, [], {}));
      && start.unknown == []
      && forall i :: 0 <= i < |full.fields| && !Knows(known, full.fields[i].id) ==> start.fields[i] == full.init[i]
  {
    hide Norm, Applied;
    AppliedFields(S, full, known, u, 0, Partial(full.init, [], {}));
    forall i | 0 <= i < |full.fields| && !Knows(known, full.fields[i].id)
      ensures forall k :: 0 <= k < |known.fields| ==> At(known, full, k) != i
    {
      UnknownIsNowhere(known, full, i);
    }
  }

  /** The replayed state is the struct after the hop. */
  lemma HopResult(S: Schema, full: StructDesc, known: StructDesc, u: Value, pf: Partial, pk: Partial, start: Partial)
    requires InStep(S, full, known, pf, pk, start) && u == Struct(pk.fields, pk.unknown)
    requires start == Applied(S, full, known, u, 0, Partial(full.init, [], {}))
    ensures var q := Replay(S, full, u.unknown, start).value.val;
      Struct(q.fields, q.unknown) == AfterHop(S, full, known, Struct(pf.fields, pf.unknown))
  {
    hide Applied, Replay, NormField;
    AppliedFields(S, full, known, u, 0, Partial(full.init, [], {}));
    var q := Replay(S, full, u.unknown, start).value.val;
    var w := Struct(pf.fields, pf.unknown);
    var a := AfterHop(S, full, known, w);
    forall i | 0 <= i < |full.fields| ensures q.fields[i] == a.fields[i] {
      if Knows(known, full.fields[i].id) {
        AtIsField(known, full, i);
        var j := GetField(known, full.fields[i].id).value;
        assert pk.fields[j] == pf.fields[At(known, full, j)];
        assert start.fields[At(known, full, j)] == NormField(S, known, j, u.fields[j], full.init[i]);
      }
    }
    assert q.fields == a.fields;
  }

  // ----- The same for the decoder

  /** The old struct holds the fields of the full one that it knows. */
  ghost predicate Holds(known: StructDesc, full: StructDesc, u: Value, w: Value)
    requires Older(known, full) && Shaped(known, u) && Shaped(full, w)
  {
    forall j :: 0 <= j < |known.fields| ==> u.fields[j] == w.fields[At(known, full, j)]
  }

  lemma OldHolds(S: Schema, full: StructDesc, known: StructDesc, b: seq<Byte>)
    requires Older(known, full) && ReadStruct(S, full, b, Fresh(full)).Some?
    ensures var w := ReadStruct(S, full, b, Fresh(full)).value.val;
      var r := ReadStruct(S, known, b, Fresh(known));
      r.Some? && Shaped(known, r.value.val) && Shaped(full, w) && Holds(known, full, r.value.val, w)
  {
    hide ReadFields, Complete, Older, ReadStruct, Replay, Rest;
    var p0 := Partial(full.init, [], {});
    StartInStep(S, full, known, p0);
    OldReads(S, full, known, b, p0);
  }

  /** The hop changes nothing if and only if every known field is its own encoding's reading. */
  lemma HopIsIdentity(S: Schema, full: StructDesc, known: StructDesc, u: Value, w: Value)
    requires Older(known, full) && TypedStruct(S, known, u) && Shaped(full, w) && Holds(known, full, u, w)
    ensures AfterHop(S, full, known, w) == w <==> Codec.CanonicalFields(S, known, u, 0)
  {
    hide Older, TypedStruct, NormField, Codec.CanonicalFields, AfterHop, Holds;
    OldShape(S, full, known, u);
    Codec.FieldsFixed(S, known, u, 0);
    var a := AfterHop(S, full, known, w);
    forall i | 0 <= i < |full.fields| ensures HopAt(S, full, known, u, w, i) {
      FieldAfterHop(S, full, known, u, w, i);
    }
    if Codec.CanonicalFields(S, known, u, 0) {
      forall i | 0 <= i < |full.fields| ensures a.fields[i] == w.fields[i] {
        assert HopAt(S, full, known, u, w, i);
      }
      assert a.fields == w.fields;
    } else if a == w {
      forall j | 0 <= j < |known.fields| ensures NormField(S, known, j, u.fields[j], known.init[j]) == u.fields[j] {
        KnownAt(known, full, j);
        assert HopAt(S, full, known, u, w, At(known, full, j));
      }
    }
  }

  /** What the hop does to one field of the full struct. */
  ghost predicate HopAt(S: Schema, full: StructDesc, known: StructDesc, u: Value, w: Value, i: nat)
    requires Older(known, full) && Shaped(known, u) && Shaped(full, w) && i < |full.fields|
  {
    var a := AfterHop(S, full, known, w);
    var k := GetField(known, full.fields[i].id);
    && (k.None? ==> a.fields[i] == w.fields[i])
    && (k.Some? ==> w.fields[i] == u.fields[k.value])
    && (k.Some? ==> a.fields[i] == NormField(S, known, k.value, u.fields[k.value], known.init[k.value]))
  }

  lemma FieldAfterHop(S: Schema, full: StructDesc, known: StructDesc, u: Value, w: Value, i: nat)
    requires Older(known, full) && Shaped(known, u) && Shaped(full, w) && Holds(known, full, u, w) && i < |full.fields|
    ensures HopAt(S, full, known, u, w, i)
  {
    hide NormField;
    if Knows(known, full.fields[i].id) {
      AtIsField(known, full, i);
    }
  }

  lemma KnownAt(known: StructDesc, full: StructDesc, j: nat)
    requires Older(known, full) && j < |known.fields|
    ensures GetField(known, full.fields[At(known, full, j)].id) == Some(j)
  {
    assert known.fieldIdx[known.fields[j].id] == j;
  }

  /**
    A message that the decoder accepts with the full schema is accepted with the old one, with
    the same budget. What is then encoded decodes with the full schema and a budget that is at
    least as large, whatever follows it, if and only if no struct with required fields is nil
    on the wire and the budget covers the known fields; the bytes that were passed through
    matter only for a smaller budget. The result is the struct after the hop.
   */
  lemma HopDecodes(S: Schema, full: StructDesc, known: StructDesc, b: seq<Byte>, s: seq<Byte>, depth: nat, again: nat)
    requires SchemaTyped(S) && InitTyped(S, known) && Older(known, full)
    requires DecodeStruct(S, full, b, Fresh(full), depth).Ok?
    ensures var w := DecodeStruct(S, full, b, Fresh(full), depth);
      var r := DecodeStruct(S, known, b, Fresh(known), depth);
      && r.Ok? && r.n == w.n && Shaped(full, w.val) && TypedStruct(S, known, r.val)
      && var e := EncodeStruct(S, known, r.val);
         var x := DecodeStruct(S, full, e + s, Fresh(full), again);
         && (x.Ok? <==> RestorableFields(S, known, r.val, 0) && HopCost(S, full, known, r.val) <= again)
         && (depth <= again ==>
              (x.Ok? <==> RestorableFields(S, known, r.val, 0) && StructCost(S, known, r.val) <= again))
         && (x.Ok? ==> x == Ok(AfterHop(S, full, known, w.val), |e|))
         && (RestorableFields(S, known, r.val, 0) && !x.Ok? ==> x.Err? && x.kind == DepthLimit)
         && (x.Ok? ==> (x.val == w.val <==> Codec.CanonicalFields(S, known, r.val, 0)))
  {
    hide DecodeStruct, ReadStruct, Older, EncodeStruct, RestorableFields, AfterHop, TypedStruct, SchemaTyped;
    hide Holds, StructCost, ReplayCost, Codec.CanonicalFields;
    Codec.DecoderIsReader(S, full, b, Fresh(full), depth);
    Codec.DecoderIsReader(S, known, b, Fresh(known), depth);
    UnknownFieldsSurvive(S, full, known, b, s);
    OldHolds(S, full, known, b);
    var w := DecodeStruct(S, full, b, Fresh(full), depth).val;
    var u := DecodeStruct(S, known, b, Fresh(known), depth).val;
    Codec.DecoderIsReader(S, full, EncodeStruct(S, known, u) + s, Fresh(full), again);
    HopIsIdentity(S, full, known, u, w);
  }
}
