/**
  The third outcome of the decoder. An index out of range means that the message is cut off:
  no message panics once enough bytes follow it, and what has been decided before the end of
  a message stays decided whatever follows.
 */
module Truncation {
  import opened Common
  import opened BigEndian
  import opened Schema
  import opened Skip
  import opened Reference
  import opened SelfDelimiting
  import opened Decoding

  // ----- How many zero bytes reading can use up

  /** More than a container header can ask for: two items of 8 bytes for each of 2^31 entries. */
  const K: nat := 16 * TWO_31 + 16

  /** All bytes from position `m` on are zero. */
  ghost predicate Tail(b: seq<Byte>, m: nat) {
    m <= |b| && forall k :: m <= k < |b| ==> b[k] == 0
  }

  /** What is left of `m` bytes behind the first `n`. */
  function Rest(m: nat, n: nat): nat {
    if n <= m then m - n else 0
  }

  /** Zero bytes that `j` values can use up that begin in front of the last `m` other bytes. */
  function Zeros(m: nat, j: nat): nat {
    K * m + 8 * j
  }

  lemma TailDrop(b: seq<Byte>, m: nat, n: nat)
    requires Tail(b, m) && n <= |b|
    ensures Tail(b[n..], Rest(m, n))
  {
  }

  /** `a` values, and behind them `j` more. */
  lemma TakesBoth(m: nat, a: nat, j: nat, n1: nat, n2: nat)
    requires n1 <= m + Zeros(m, a) && n2 <= Rest(m, n1) + Zeros(Rest(m, n1), j)
    ensures n1 + n2 <= m + Zeros(m, a + j)
  {
    if n1 <= m {
      Monotone(m - n1, m, K);
    }
  }

  /** The zero bytes suffice for what follows. */
  lemma EnoughLeft(len: nat, m: nat, a: nat, j: nat, n: nat)
    requires m <= len && n <= len && n <= m + Zeros(m, a) && len - m >= Zeros(m, a + j)
    ensures len - n - Rest(m, n) >= Zeros(Rest(m, n), j)
  {
    if n <= m {
      Monotone(m - n, m, K);
    }
  }

  /** Behind a header that is not all zeros, one of the other bytes pays for its length. */
  lemma Paid(len: nat, m: nat, h: nat, j: nat)
    requires 0 < m <= len && 0 < h <= 6 && h <= len && j <= 2 * TWO_31
    ensures h + Rest(m, h) + Zeros(Rest(m, h), j) <= m + Zeros(m, 0)
    ensures len - m >= Zeros(m, 1) ==> len - h - Rest(m, h) >= Zeros(Rest(m, h), j)
  {
    Monotone(Rest(m, h), m - 1, K);
  }

  lemma ZerosRead(b: seq<Byte>, i: nat)
    requires Tail(b, 0) && i + 4 <= |b|
    ensures Get32(b[i..]) == 0
  {
  }

  // ----- Skipping

  lemma {:induction false} SkipValueTakes(wt: Byte, b: seq<Byte>, m: nat)
    requires Tail(b, m) && SkipValue(wt, b).Some?
    ensures SkipValue(wt, b).value <= m + Zeros(m, 1)
    decreases |b|, 1, 0
  {
    hide SkipFields, SkipElems, SkipPairs, Get32, Tail, Zeros;
    ZerosOfOne(m);
    if FixedWireSize(wt) > 0 {
    } else if wt == WT_STRING {
      if m == 0 {
        ZerosRead(b, 0);
        assert b[0..] == b;
      }
    } else if wt == WT_STRUCT {
      SkipFieldsTakes(b, m);
    } else if wt == WT_MAP {
      var l := Get32(b[2..]);
      TailDrop(b, m, 6);
      SkipPairsTakes(b[0], b[1], b[6..], l, Rest(m, 6));
      if m == 0 {
        ZerosRead(b, 2);
        ZerosOfNothing();
      } else {
        Paid(|b|, m, 6, 2 * l);
      }
    } else {
      var l := Get32(b[1..]);
      TailDrop(b, m, 5);
      SkipElemsTakes(b[0], b[5..], l, Rest(m, 5));
      if m == 0 {
        ZerosRead(b, 1);
        ZerosOfNothing();
      } else {
        Paid(|b|, m, 5, l);
      }
    }
  }

  lemma ZerosOfOne(m: nat)
    ensures Zeros(m, 1) == Zeros(m, 0) + 8 && (m > 0 ==> Zeros(m, 0) >= K)
  {
    if m > 0 {
      Monotone(1, m, K);
    }
  }

  lemma ZerosOfNothing()
    ensures forall j: nat :: Zeros(0, j) == 8 * j
  {
  }

  lemma {:induction false} SkipFieldsTakes(b: seq<Byte>, m: nat)
    requires Tail(b, m) && SkipFields(b).Some?
    ensures SkipFields(b).value <= m + Zeros(m, 1)
    decreases |b|, 0, 0
  {
    hide SkipValue, Zeros;
    ZerosOfOne(m);
    if b[0] != STOP {
      var n := SkipValue(b[0], b[3..]).value;
      TailDrop(b, m, 3);
      SkipValueTakes(b[0], b[3..], Rest(m, 3));
      Paid(|b|, m, 3, 1);
      TailDrop(b, m, 3 + n);
      SkipFieldsTakes(b[3 + n..], Rest(m, 3 + n));
      TakesBoth(m, 0, 1, 3 + n, SkipFields(b[3 + n..]).value);
    }
  }

  lemma {:induction false} SkipElemsTakes(wt: Byte, b: seq<Byte>, l: nat, m: nat)
    requires Tail(b, m) && SkipElems(wt, b, l).Some?
    ensures SkipElems(wt, b, l).value <= m + Zeros(m, l)
    decreases |b|, 2, l
  {
    hide SkipValue, Zeros, Tail;
    if l > 0 {
      var n := SkipValue(wt, b).value;
      SkipValueTakes(wt, b, m);
      TailDrop(b, m, n);
      SkipElemsTakes(wt, b[n..], l - 1, Rest(m, n));
      TakesBoth(m, 1, l - 1, n, SkipElems(wt, b[n..], l - 1).value);
    }
  }

  lemma {:induction false} SkipPairTakes(kt: Byte, vt: Byte, b: seq<Byte>, m: nat)
    requires Tail(b, m) && SkipPair(kt, vt, b).Some?
    ensures SkipPair(kt, vt, b).value <= m + Zeros(m, 2)
    decreases |b|, 2, 0
  {
    hide SkipValue, Zeros, Tail;
    var n := SkipValue(kt, b).value;
    SkipValueTakes(kt, b, m);
    TailDrop(b, m, n);
    SkipValueTakes(vt, b[n..], Rest(m, n));
    TakesBoth(m, 1, 1, n, SkipValue(vt, b[n..]).value);
  }

  lemma {:induction false} SkipPairsTakes(kt: Byte, vt: Byte, b: seq<Byte>, l: nat, m: nat)
    requires Tail(b, m) && SkipPairs(kt, vt, b, l).Some?
    ensures SkipPairs(kt, vt, b, l).value <= m + Zeros(m, 2 * l)
    decreases |b|, 3, l
  {
    hide SkipPair, Zeros, Tail;
    if l > 0 {
      var n := SkipPair(kt, vt, b).value;
      SkipPairTakes(kt, vt, b, m);
      TailDrop(b, m, n);
      SkipPairsTakes(kt, vt, b[n..], l - 1, Rest(m, n));
      TakesBoth(m, 2, 2 * (l - 1), n, SkipPairs(kt, vt, b[n..], l - 1).value);
    }
  }

  // ----- Decoding

  /** No panic, and no more than `limit` bytes used. */
  predicate Quiet<A>(o: Outcome<A>, limit: nat) {
    !o.Panic? && (o.Ok? ==> o.n <= limit)
  }

  lemma StringQuiet(b: seq<Byte>, m: nat)
    requires Tail(b, m)
    ensures Quiet(DecodeString(b), m + Zeros(m, 1))
  {
    hide Get32, Zeros;
    ZerosOfOne(m);
    if m == 0 && |b| >= 4 {
      ZerosRead(b, 0);
      assert b[0..] == b;
    }
  }

  lemma {:induction false} TypeQuiet(S: Schema, t: Type, b: seq<Byte>, m: nat, depth: nat)
    requires Closed(S) && NamesIn(S, t) && Tail(b, m) && |b| - m >= Zeros(m, 1)
    ensures Quiet(DecodeType(S, t, b, depth), m + Zeros(m, 1))
    decreases depth, 4, t
  {
    hide DecodeString, DecodeMap, DecodeList, DecodeStruct, Tail, Zeros, Quiet;
    if depth == 0 {
      FailsQuietly<Value>(Err(0, DepthLimit), m);
    } else if FixedSize(t) > 0 {
      FixedQuiet(t, b, m);
    } else {
      match t
      case TPtr(e) => TypeQuiet(S, e, b, m, depth);
      case TStruct(name) => NamedIn(S, name); StructQuiet(S, S[name], b, m, Fresh(S[name]), depth - 1);
      case TMap(kt, vt) => MapQuiet(S, kt, vt, b, m, depth);
      case TSet(et) => ListQuiet(S, et, b, m, depth);
      case TList(et) => ListQuiet(S, et, b, m, depth);
      case TString => StringQuiet(b, m);
      case TBinary => StringQuiet(b, m);
    }
  }

  lemma FailsQuietly<A>(o: Outcome<A>, m: nat)
    requires o.Err?
    ensures Quiet(o, m + Zeros(m, 1))
  {
  }

  lemma {:induction false} FixedAtMost8(t: Type)
    ensures FixedSize(t) <= 8
    decreases t
  {
    if t.TPtr? {
      FixedAtMost8(t.pointee);
    }
  }

  lemma FixedQuiet(t: Type, b: seq<Byte>, m: nat)
    requires FixedSize(t) > 0 && m <= |b| && |b| - m >= Zeros(m, 1)
    ensures Quiet(DecodeFixed(t, b), m + Zeros(m, 1))
  {
    FixedAtMost8(t);
  }

  lemma {:induction false} ElemQuiet(S: Schema, t: Type, b: seq<Byte>, m: nat, depth: nat)
    requires Closed(S) && NamesIn(S, t) && Tail(b, m) && |b| - m >= Zeros(m, 1)
    ensures Quiet(DecodeElem(S, t, b, depth), m + Zeros(m, 1))
    decreases depth, 5, t
  {
    hide DecodeType, DecodeFixed, Tail, Zeros, Quiet, Built;
    if FixedSize(t) > 0 {
      FixedQuiet(t, b, m);
    } else {
      TypeQuiet(S, t, b, m, depth);
    }
  }

  lemma {:induction false} ListQuiet(S: Schema, et: Type, b: seq<Byte>, m: nat, depth: nat)
    requires Closed(S) && NamesIn(S, et) && Tail(b, m) && |b| - m >= Zeros(m, 1) && depth > 0
    ensures Quiet(DecodeList(S, et, b, depth), m + Zeros(m, 1))
    decreases depth, 3
  {
    hide DecodeElems, Get32, Room, MinWireSize, Zeros, Built;
    ZerosOfOne(m);
    if |b| >= 5 {
      var l := Get32(b[1..]);
      if m == 0 {
        WireTypeIsNotStop(et);
      } else if l < TWO_31 {
        TailDrop(b, m, 5);
        Paid(|b|, m, 5, l);
        ElemsQuiet(S, et, b, 5, Rest(m, 5), l, [], depth - 1);
      }
    }
  }

  lemma {:induction false} ElemsQuiet(S: Schema, et: Type, b: seq<Byte>, i: nat, m: nat, l: nat, acc: seq<Value>,
                                      depth: nat)
    requires i <= |b| && Closed(S) && NamesIn(S, et) && Tail(b[i..], m) && |b| - i - m >= Zeros(m, l)
    ensures Quiet(DecodeElems(S, et, b, i, l, acc, depth), i + m + Zeros(m, l))
    decreases depth, 6, l
  {
    hide DecodeElem, Zeros, Tail, Built;
    if l > 0 {
      MoreThanOne(m, l);
      ElemQuiet(S, et, b[i..], m, depth);
      var o := DecodeElem(S, et, b[i..], depth);
      if o.Ok? {
        TailDrop(b[i..], m, o.n);
        DropDrop(b, i, o.n);
        TailIsShort(b[i..], m);
        EnoughLeft(|b| - i, m, 1, l - 1, o.n);
        ElemsQuiet(S, et, b, i + o.n, Rest(m, o.n), l - 1, acc + [o.val], depth);
        var r := DecodeElems(S, et, b, i + o.n, l - 1, acc + [o.val], depth);
        if r.Ok? {
          TakesAfter(m, 1, l - 1, o.n, r.n - i - o.n);
        }
      }
    }
  }

  lemma TailIsShort(b: seq<Byte>, m: nat)
    requires Tail(b, m)
    ensures m <= |b|
  {
  }

  lemma MoreThanOne(m: nat, l: nat)
    ensures forall k: nat :: k <= l ==> Zeros(m, k) <= Zeros(m, l)
  {
  }

  /** TakesBoth, where the second part may be said to take less than nothing. */
  lemma TakesAfter(m: nat, a: nat, j: nat, n1: nat, n2: int)
    requires n1 <= m + Zeros(m, a) && n2 <= Rest(m, n1) + Zeros(Rest(m, n1), j)
    ensures n1 + n2 <= m + Zeros(m, a + j)
  {
    TakesBoth(m, a, j, n1, Rest(m, n1) + Zeros(Rest(m, n1), j));
  }

  lemma {:induction false} MapQuiet(S: Schema, kt: Type, vt: Type, b: seq<Byte>, m: nat, depth: nat)
    requires Closed(S) && NamesIn(S, kt) && NamesIn(S, vt) && Tail(b, m) && |b| - m >= Zeros(m, 1) && depth > 0
    ensures Quiet(DecodeMap(S, kt, vt, b, depth), m + Zeros(m, 1))
    decreases depth, 3
  {
    hide DecodeEntries, Get32, Room, MinWireSize, Zeros, Built;
    ZerosOfOne(m);
    if |b| >= 6 {
      var l := Get32(b[2..]);
      if m == 0 {
        WireTypeIsNotStop(kt);
      } else if l < TWO_31 {
        TailDrop(b, m, 6);
        Paid(|b|, m, 6, 2 * l);
        EntriesQuiet(S, kt, vt, b, 6, Rest(m, 6), l, [], depth - 1);
      }
    }
  }

  lemma {:induction false} EntryQuiet(S: Schema, kt: Type, vt: Type, b: seq<Byte>, m: nat, depth: nat)
    requires Closed(S) && NamesIn(S, kt) && NamesIn(S, vt) && Tail(b, m) && |b| - m >= Zeros(m, 2)
    ensures Quiet(DecodeEntry(S, kt, vt, b, depth), m + Zeros(m, 2))
    decreases depth, 6, 0
  {
    hide DecodeElem, Zeros, Tail, Built;
    MoreThanOne(m, 2);
    ElemQuiet(S, kt, b, m, depth);
    var k := DecodeElem(S, kt, b, depth);
    if k.Ok? {
      TailDrop(b, m, k.n);
      TailIsShort(b, m);
      EnoughLeft(|b|, m, 1, 1, k.n);
      ElemQuiet(S, vt, b[k.n..], Rest(m, k.n), depth);
      var v := DecodeElem(S, vt, b[k.n..], depth);
      if v.Ok? {
        TakesBoth(m, 1, 1, k.n, v.n);
      }
    }
  }

  lemma {:induction false} EntriesQuiet(S: Schema, kt: Type, vt: Type, b: seq<Byte>, i: nat, m: nat, l: nat,
                                        es: seq<Entry>, depth: nat)
    requires i <= |b| && Closed(S) && NamesIn(S, kt) && NamesIn(S, vt)
    requires Tail(b[i..], m) && |b| - i - m >= Zeros(m, 2 * l)
    ensures Quiet(DecodeEntries(S, kt, vt, b, i, l, es, depth), i + m + Zeros(m, 2 * l))
    decreases depth, 7, l
  {
    hide DecodeEntry, MapPut, Zeros, Tail, Built;
    if l > 0 {
      MoreThanOne(m, 2 * l);
      EntryQuiet(S, kt, vt, b[i..], m, depth);
      var o := DecodeEntry(S, kt, vt, b[i..], depth);
      if o.Ok? {
        TailDrop(b[i..], m, o.n);
        DropDrop(b, i, o.n);
        TailIsShort(b[i..], m);
        EnoughLeft(|b| - i, m, 2, 2 * (l - 1), o.n);
        EntriesQuiet(S, kt, vt, b, i + o.n, Rest(m, o.n), l - 1, MapPut(kt, es, o.val), depth);
        var r := DecodeEntries(S, kt, vt, b, i + o.n, l - 1, MapPut(kt, es, o.val), depth);
        if r.Ok? {
          TakesAfter(m, 2, 2 * (l - 1), o.n, r.n - i - o.n);
        }
      }
    }
  }

  lemma {:induction false} FieldValueQuiet(S: Schema, f: Field, b: seq<Byte>, m: nat, depth: nat)
    requires Closed(S) && NamesIn(S, f.typ) && Tail(b, m) && |b| - m >= Zeros(m, 1)
    ensures Quiet(DecodeFieldValue(S, f, b, depth), m + Zeros(m, 1))
    decreases depth, 6
  {
    hide DecodeElem, DecodeString, Tail, Zeros, Quiet, Built;
    if FixedSize(f.typ) == 0 && f.noCopy {
      StringQuiet(b, m);
    } else {
      ElemQuiet(S, f.typ, b, m, depth);
    }
  }

  lemma {:induction false} FieldQuiet(S: Schema, sd: StructDesc, b: seq<Byte>, m: nat, p: Partial, depth: nat)
    requires |p.fields| == |sd.fields| && Closed(S) && DescNamesIn(S, sd)
    requires Tail(b, m) && m > 0 && |b| - m >= Zeros(m, 1)
    ensures Quiet(DecodeField(S, sd, b, p, depth), m + Zeros(m, 0))
    decreases depth, 7
  {
    hide DecodeFieldValue, SkipValue, KnownField, Get16, Zeros, Tail, Built;
    TailIsShort(b, m);
    ZerosOfOne(m);
    TailDrop(b, m, 3);
    Paid(|b|, m, 3, 1);
    match KnownField(sd, b[0], Get16(b[1..]))
    case None =>
      if SkipValue(b[0], b[3..]).Some? {
        SkipValueTakes(b[0], b[3..], Rest(m, 3));
      }
    case Some(k) =>
      FieldValueQuiet(S, sd.fields[k], b[3..], Rest(m, 3), depth);
  }

  lemma {:induction false} FieldsQuiet(S: Schema, sd: StructDesc, b: seq<Byte>, i: nat, m: nat, p: Partial, depth: nat)
    requires |p.fields| == |sd.fields| && i <= |b| && Closed(S) && DescNamesIn(S, sd)
    requires Tail(b[i..], m) && |b| - i - m >= Zeros(m, 1)
    ensures Quiet(DecodeFields(S, sd, b, i, p, depth), i + m + Zeros(m, 1))
    decreases depth, 8, |b| - i
  {
    hide DecodeField, Zeros, DescNamesIn, Built;
    ZerosOfOne(m);
    if b[i] != STOP {
      assert b[i..][0] == b[i];
      FieldQuiet(S, sd, b[i..], m, p, depth);
      var o := DecodeField(S, sd, b[i..], p, depth);
      if o.Ok? {
        TailDrop(b[i..], m, o.n);
        DropDrop(b, i, o.n);
        EnoughLeft(|b| - i, m, 0, 1, o.n);
        FieldsQuiet(S, sd, b, i + o.n, Rest(m, o.n), o.val, depth);
        var r := DecodeFields(S, sd, b, i + o.n, o.val, depth);
        if r.Ok? {
          TakesAfter(m, 0, 1, o.n, r.n - i - o.n);
        }
      }
    }
  }

  lemma {:induction false} StructQuiet(S: Schema, sd: StructDesc, b: seq<Byte>, m: nat, target: Value, depth: nat)
    requires target.Struct? && |target.fields| == |sd.fields| && Closed(S) && DescNamesIn(S, sd)
    requires Tail(b, m) && |b| - m >= Zeros(m, 1)
    ensures Quiet(DecodeStruct(S, sd, b, target, depth), m + Zeros(m, 1))
    decreases depth, 2
  {
    hide DecodeFields, Complete, Tail, Zeros, Built;
    if depth > 0 {
      assert b[0..] == b;
      FieldsQuiet(S, sd, b, 0, m, Partial(target.fields, [], {}), depth - 1);
    }
  }

  /** `b` with enough zero bytes behind it. */
  function Padded(b: seq<Byte>): seq<Byte> {
    b + seq(Zeros(|b|, 1), _ => 0)
  }

  /** No message panics once enough bytes follow it: a panic means that it is cut off. */
  lemma PaddingEndsPanic(S: Schema, sd: StructDesc, b: seq<Byte>, target: Value, depth: nat)
    requires target.Struct? && |target.fields| == |sd.fields| && Closed(S) && DescNamesIn(S, sd)
    ensures b <= Padded(b) && !DecodeStruct(S, sd, Padded(b), target, depth).Panic?
  {
    hide DecodeStruct, Zeros, Built;
    StructQuiet(S, sd, Padded(b), |b|, target, depth);
  }

  // ----- What is decided stays decided

  /** Accepted, or refused for something that stands in the message. */
  predicate Final<A>(o: Outcome<A>) {
    o.Ok? || (o.Err? && o.kind in {DepthLimit, NegativeSize, TypeMismatch, RequiredNotSet})
  }

  /** A part that failed decides with its kind. */
  lemma PartIsFinal<A, B>(o: Outcome<A>, r: Outcome<B>, at: nat)
    requires Final(r) && !o.Ok? && r == if o.Err? then Err(at, o.kind) else Panic
    ensures Final(o)
  {
  }

  lemma OkIsFinal<A>(o: Outcome<A>)
    requires o.Ok?
    ensures Final(o)
  {
  }

  lemma PrefixDrop(b: seq<Byte>, c: seq<Byte>, i: nat)
    requires b <= c && i <= |b|
    ensures b[i..] <= c[i..]
  {
  }

  lemma PrefixAgrees(b: seq<Byte>, c: seq<Byte>)
    requires b <= c
    ensures Agree(b, c, |b|)
  {
  }

  lemma StringStays(b: seq<Byte>, c: seq<Byte>)
    requires b <= c && Final(DecodeString(b))
    ensures DecodeString(c) == DecodeString(b)
  {
    if |b| >= 4 && 0 < Get32(b) < TWO_31 {
      assert b[4..4 + Get32(b)] == c[4..4 + Get32(b)];
    }
  }

  lemma FixedStays(t: Type, b: seq<Byte>, c: seq<Byte>)
    requires FixedSize(t) > 0 && b <= c && Final(DecodeFixed(t, b))
    ensures DecodeFixed(t, c) == DecodeFixed(t, b)
  {
    PrefixAgrees(b, c);
    GetFixedLocal(t, b, c);
  }

  lemma {:induction false} TypeStays(S: Schema, t: Type, b: seq<Byte>, c: seq<Byte>, depth: nat)
    requires b <= c && Final(DecodeType(S, t, b, depth))
    ensures DecodeType(S, t, c, depth) == DecodeType(S, t, b, depth)
    decreases depth, 4, t
  {
    hide DecodeString, DecodeMap, DecodeList, DecodeStruct, DecodeFixed, Final;
    if depth > 0 {
      if FixedSize(t) > 0 {
        FixedStays(t, b, c);
      } else {
        match t
        case TPtr(e) => TypeStays(S, e, b, c, depth);
        case TStruct(name) => if name in S { StructStays(S, S[name], b, c, Fresh(S[name]), depth - 1); }
        case TMap(kt, vt) => MapStays(S, kt, vt, b, c, depth);
        case TSet(et) => ListStays(S, et, b, c, depth);
        case TList(et) => ListStays(S, et, b, c, depth);
        case TString => StringStays(b, c);
        case TBinary => StringStays(b, c);
      }
    }
  }

  lemma {:induction false} ElemStays(S: Schema, t: Type, b: seq<Byte>, c: seq<Byte>, depth: nat)
    requires b <= c && Final(DecodeElem(S, t, b, depth))
    ensures DecodeElem(S, t, c, depth) == DecodeElem(S, t, b, depth)
    decreases depth, 5, t
  {
    hide DecodeType, DecodeFixed, Final, Built;
    if FixedSize(t) > 0 {
      FixedStays(t, b, c);
    } else {
      TypeStays(S, t, b, c, depth);
    }
  }

  lemma RoomGrows(l: nat, r: nat, q: nat, size: nat)
    requires l <= Room(r, size) && r <= q
    ensures l <= Room(q, size)
  {
    if size > 0 {
      var x, y := r / size, q / size;
      assert x * size <= r && q < y * size + size;
      if y + 1 <= x {
        Monotone(y + 1, x, size);
      }
    }
  }

  lemma HeaderStays(b: seq<Byte>, c: seq<Byte>, i: nat)
    requires b <= c && i + 4 <= |b|
    ensures Get32(c[i..]) == Get32(b[i..])
  {
  }

  lemma {:induction false} ListStays(S: Schema, et: Type, b: seq<Byte>, c: seq<Byte>, depth: nat)
    requires b <= c && depth > 0 && Final(DecodeList(S, et, b, depth))
    ensures DecodeList(S, et, c, depth) == DecodeList(S, et, b, depth)
    decreases depth, 3
  {
    hide DecodeElems, Get32, Room, MinWireSize, WireType, Built;
    if |b| >= 5 {
      var l := Get32(b[1..]);
      HeaderStays(b, c, 1);
      if l < TWO_31 && b[0] == WireType(et) && l > 0 {
        RoomGrows(l, |b| - 5, |c| - 5, MinWireSize(WireType(et)));
        ElemsStay(S, et, b, c, 5, l, [], depth - 1);
      }
    }
  }

  lemma {:induction false} ElemsStay(S: Schema, et: Type, b: seq<Byte>, c: seq<Byte>, i: nat, l: nat,
                                     acc: seq<Value>, depth: nat)
    requires b <= c && i <= |b| && Final(DecodeElems(S, et, b, i, l, acc, depth))
    ensures DecodeElems(S, et, c, i, l, acc, depth) == DecodeElems(S, et, b, i, l, acc, depth)
    decreases depth, 6, l
  {
    hide DecodeElems, DecodeElem, Final, Built;
    UnfoldElems(S, et, b, i, l, acc, depth);
    UnfoldElems(S, et, c, i, l, acc, depth);
    if l > 0 {
      PrefixDrop(b, c, i);
      var o := DecodeElem(S, et, b[i..], depth);
      if o.Ok? {
        OkIsFinal(o);
        ElemStays(S, et, b[i..], c[i..], depth);
        ElemsStay(S, et, b, c, i + o.n, l - 1, acc + [o.val], depth);
      } else {
        PartIsFinal(o, DecodeElems(S, et, b, i, l, acc, depth), i);
        ElemStays(S, et, b[i..], c[i..], depth);
      }
    }
  }

  /** Behind a map header that is in order, the length check decides. */
  lemma UnfoldMap(S: Schema, kt: Type, vt: Type, b: seq<Byte>, depth: nat)
    requires depth > 0 && |b| >= 6 && Get32(b[2..]) < TWO_31 && b[0] == WireType(kt) && b[1] == WireType(vt)
    ensures DecodeMap(S, kt, vt, b, depth)
      == if Get32(b[2..]) > Room(|b| - 6, MinWireSize(WireType(kt)) + MinWireSize(WireType(vt)))
         then Err(6, SizeExceedsBuffer)
         else DecodeEntries(S, kt, vt, b, 6, Get32(b[2..]), [], depth - 1)
  {
    hide DecodeEntries, Get32, Room, MinWireSize, WireType, Built;
  }

  /** A header that is not in order is reported. */
  lemma BadMapHeader(S: Schema, kt: Type, vt: Type, b: seq<Byte>, depth: nat)
    requires depth > 0 && !(|b| >= 6 && Get32(b[2..]) < TWO_31 && b[0] == WireType(kt) && b[1] == WireType(vt))
    ensures DecodeMap(S, kt, vt, b, depth)
      == if |b| < 6 then Err(0, ShortBuffer)
         else if Get32(b[2..]) >= TWO_31 then Err(0, NegativeSize)
         else Err(0, TypeMismatch)
  {
    hide DecodeEntries, Get32, Room, MinWireSize, WireType, Built;
  }

  lemma {:induction false} MapStays(S: Schema, kt: Type, vt: Type, b: seq<Byte>, c: seq<Byte>, depth: nat)
    requires b <= c && depth > 0 && Final(DecodeMap(S, kt, vt, b, depth))
    ensures DecodeMap(S, kt, vt, c, depth) == DecodeMap(S, kt, vt, b, depth)
    decreases depth, 3
  {
    hide DecodeMap, DecodeEntries, Get32, Room, MinWireSize, WireType, Built;
    if |b| >= 6 {
      HeaderStays(b, c, 2);
    }
    if |b| >= 6 && Get32(b[2..]) < TWO_31 && b[0] == WireType(kt) && b[1] == WireType(vt) {
      UnfoldMap(S, kt, vt, b, depth);
      UnfoldMap(S, kt, vt, c, depth);
      RoomGrows(Get32(b[2..]), |b| - 6, |c| - 6, MinWireSize(WireType(kt)) + MinWireSize(WireType(vt)));
      EntriesStay(S, kt, vt, b, c, 6, Get32(b[2..]), [], depth - 1);
    } else {
      BadMapHeader(S, kt, vt, b, depth);
      BadMapHeader(S, kt, vt, c, depth);
    }
  }

  lemma {:induction false} EntryStays(S: Schema, kt: Type, vt: Type, b: seq<Byte>, c: seq<Byte>, depth: nat)
    requires b <= c && Final(DecodeEntry(S, kt, vt, b, depth))
    ensures DecodeEntry(S, kt, vt, c, depth) == DecodeEntry(S, kt, vt, b, depth)
    decreases depth, 6, 0
  {
    hide DecodeEntry, DecodeElem, Built;
    UnfoldEntry(S, kt, vt, b, depth);
    UnfoldEntry(S, kt, vt, c, depth);
    ElemStays(S, kt, b, c, depth);
    var k := DecodeElem(S, kt, b, depth);
    if k.Ok? {
      PrefixDrop(b, c, k.n);
      ElemStays(S, vt, b[k.n..], c[k.n..], depth);
    }
  }

  /** A final outcome of the entries comes from a final outcome of the first of them. */
  lemma FirstEntryIsFinal(S: Schema, kt: Type, vt: Type, b: seq<Byte>, i: nat, l: nat, es: seq<Entry>, depth: nat)
    requires i <= |b| && l > 0 && Final(DecodeEntries(S, kt, vt, b, i, l, es, depth))
    ensures var o := DecodeEntry(S, kt, vt, b[i..], depth);
      Final(o) && (o.Ok? ==> Final(DecodeEntries(S, kt, vt, b, i + o.n, l - 1, MapPut(kt, es, o.val), depth)))
  {
    hide DecodeEntries, DecodeEntry, MapPut, Built;
    UnfoldEntries(S, kt, vt, b, i, l, es, depth);
  }

  lemma {:induction false} EntriesStay(S: Schema, kt: Type, vt: Type, b: seq<Byte>, c: seq<Byte>, i: nat, l: nat,
                                       es: seq<Entry>, depth: nat)
    requires b <= c && i <= |b| && Final(DecodeEntries(S, kt, vt, b, i, l, es, depth))
    ensures DecodeEntries(S, kt, vt, c, i, l, es, depth) == DecodeEntries(S, kt, vt, b, i, l, es, depth)
    decreases depth, 7, l
  {
    hide DecodeEntries, DecodeEntry, MapPut, Final, Built;
    if l > 0 {
      FirstEntryIsFinal(S, kt, vt, b, i, l, es, depth);
      PrefixDrop(b, c, i);
      EntryStays(S, kt, vt, b[i..], c[i..], depth);
      var o := DecodeEntry(S, kt, vt, b[i..], depth);
      if o.Ok? {
        EntriesStay(S, kt, vt, b, c, i + o.n, l - 1, MapPut(kt, es, o.val), depth);
      }
    }
    UnfoldEntries(S, kt, vt, b, i, l, es, depth);
    UnfoldEntries(S, kt, vt, c, i, l, es, depth);
  }

  lemma {:induction false} FieldStays(S: Schema, sd: StructDesc, b: seq<Byte>, c: seq<Byte>, p: Partial, depth: nat)
    requires |p.fields| == |sd.fields| && b <= c && Final(DecodeField(S, sd, b, p, depth))
    ensures DecodeField(S, sd, c, p, depth) == DecodeField(S, sd, b, p, depth)
    decreases depth, 7
  {
    hide DecodeElem, DecodeString, SkipValue, KnownField, Built;
    PrefixDrop(b, c, 3);
    match KnownField(sd, b[0], Get16(b[1..]))
    case None =>
      var n := SkipValue(b[0], b[3..]);
      PrefixAgrees(b[3..], c[3..]);
      SkipValueLocal(b[0], b[3..], c[3..], |b| - 3);
      assert b[..3 + n.value] == c[..3 + n.value];
    case Some(k) =>
      var f := sd.fields[k];
      if FixedSize(f.typ) == 0 && f.noCopy {
        StringStays(b[3..], c[3..]);
      } else {
        ElemStays(S, f.typ, b[3..], c[3..], depth);
      }
  }

  lemma {:induction false} FieldsStay(S: Schema, sd: StructDesc, b: seq<Byte>, c: seq<Byte>, i: nat, p: Partial,
                                      depth: nat)
    requires |p.fields| == |sd.fields| && b <= c && i <= |b| && Final(DecodeFields(S, sd, b, i, p, depth))
    ensures DecodeFields(S, sd, c, i, p, depth) == DecodeFields(S, sd, b, i, p, depth)
    decreases depth, 8, |b| - i
  {
    hide DecodeFields, DecodeField, Built;
    UnfoldFields(S, sd, b, i, p, depth);
    UnfoldFields(S, sd, c, i, p, depth);
    if b[i] != STOP {
      PrefixDrop(b, c, i);
      FieldStays(S, sd, b[i..], c[i..], p, depth);
      var o := DecodeField(S, sd, b[i..], p, depth);
      if o.Ok? {
        FieldsStay(S, sd, b, c, i + o.n, o.val, depth);
      }
    }
  }

  lemma {:induction false} StructStays(S: Schema, sd: StructDesc, b: seq<Byte>, c: seq<Byte>, target: Value, depth: nat)
    requires target.Struct? && |target.fields| == |sd.fields| && b <= c && Final(DecodeStruct(S, sd, b, target, depth))
    ensures DecodeStruct(S, sd, c, target, depth) == DecodeStruct(S, sd, b, target, depth)
    decreases depth, 2
  {
    hide DecodeFields, Complete, Built;
    if depth > 0 {
      var p := Partial(target.fields, [], {});
      if DecodeFields(S, sd, b, 0, p, depth - 1).Ok? || Final(DecodeFields(S, sd, b, 0, p, depth - 1)) {
        FieldsStay(S, sd, b, c, 0, p, depth - 1);
      }
    }
  }

  /**
    A message that panics is neither accepted nor refused for what it contains: other bytes
    behind it lead to another outcome. One that is accepted, or refused for its depth, a
    negative size, a wrong type or a missing field, keeps this outcome whatever follows.
   */
  lemma PanicIsTruncation(S: Schema, sd: StructDesc, b: seq<Byte>, target: Value, depth: nat, s: seq<Byte>)
    requires target.Struct? && |target.fields| == |sd.fields| && Closed(S) && DescNamesIn(S, sd)
    ensures var o := DecodeStruct(S, sd, b, target, depth);
      && (o.Panic? ==> DecodeStruct(S, sd, Padded(b), target, depth) != o)
      && (Final(o) ==> DecodeStruct(S, sd, b + s, target, depth) == o)
  {
    hide DecodeStruct, Padded, Final, Built;
    PaddingEndsPanic(S, sd, b, target, depth);
    if Final(DecodeStruct(S, sd, b, target, depth)) {
      StructStays(S, sd, b, b + s, target, depth);
    }
  }
}
