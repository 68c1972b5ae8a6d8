/**
  Skipping a value of a given wire type. thrift.Binary.Skip itself is not part of this
  model: this is the Thrift Binary Protocol's own reading of a value, without a depth limit.
  Containers of zero elements are skipped whatever their element type.
 */
module Skip {
  import opened Common
  import opened BigEndian
  import opened Schema

  function FixedWireSize(wt: Byte): nat {
    if wt == WT_BOOL || wt == WT_BYTE then 1
    else if wt == WT_I16 then 2
    else if wt == WT_I32 then 4
    else if wt == WT_I64 || wt == WT_DOUBLE then 8
    else 0
  }

  lemma FixedSizeIsWireSize(t: Type)
    ensures FixedWireSize(WireType(t)) == FixedSize(t)
  {
  }

  /** `n` bytes and then what `r` says. */
  function Plus(n: nat, r: Option<nat>): Option<nat> {
    match r
    case None => None
    case Some(m) => Some(n + m)
  }

  /** Number of bytes of the value of wire type `wt` at the start of `b`. */
  function SkipValue(wt: Byte, b: seq<Byte>): (r: Option<nat>)
    ensures r.Some? ==> 1 <= r.value <= |b|
    decreases |b|, 1, 0
  {
    if FixedWireSize(wt) > 0 then
      if |b| < FixedWireSize(wt) then None else Some(FixedWireSize(wt))
    else if wt == WT_STRING then
      if |b| < 4 || Get32(b) >= TWO_31 || Get32(b) > |b| - 4 then None else Some(4 + Get32(b))
    else if wt == WT_STRUCT then
      SkipFields(b)
    else if wt == WT_MAP then
      if |b| < 6 || Get32(b[2..]) >= TWO_31 then None
      else
        Plus(6, SkipPairs(b[0], b[1], b[6..], Get32(b[2..])))
    else if wt == WT_SET || wt == WT_LIST then
      if |b| < 5 || Get32(b[1..]) >= TWO_31 then None
      else
        Plus(5, SkipElems(b[0], b[5..], Get32(b[1..])))
    else
      None
  }

  function SkipFields(b: seq<Byte>): (r: Option<nat>)
    ensures r.Some? ==> 1 <= r.value <= |b|
    decreases |b|, 0, 0
  {
    if |b| == 0 then None
    else if b[0] == STOP then Some(1)
    else if |b| < 3 then None
    else
      match SkipValue(b[0], b[3..])
      case None => None
      case Some(n) => Plus(3 + n, SkipFields(b[3 + n..]))
  }

  function SkipElems(wt: Byte, b: seq<Byte>, l: nat): (r: Option<nat>)
    ensures r.Some? ==> r.value <= |b|
    decreases |b|, 2, l
  {
    if l == 0 then Some(0)
    else
      match SkipValue(wt, b)
      case None => None
      case Some(n) => Plus(n, SkipElems(wt, b[n..], l - 1))
  }

  /** One map entry: a key and then a value. */
  function SkipPair(kt: Byte, vt: Byte, b: seq<Byte>): (r: Option<nat>)
    ensures r.Some? ==> r.value <= |b|
    decreases |b|, 2, 0
  {
    match SkipValue(kt, b)
    case None => None
    case Some(n) => Plus(n, SkipValue(vt, b[n..]))
  }

  function SkipPairs(kt: Byte, vt: Byte, b: seq<Byte>, l: nat): (r: Option<nat>)
    ensures r.Some? ==> r.value <= |b|
    decreases |b|, 3, l
  {
    if l == 0 then Some(0)
    else
      match SkipPair(kt, vt, b)
      case None => None
      case Some(n) => Plus(n, SkipPairs(kt, vt, b[n..], l - 1))
  }

  // ----- A skipped value depends on its own bytes only.

  lemma {:induction false} SkipValueLocal(wt: Byte, b: seq<Byte>, c: seq<Byte>, m: nat)
    requires Agree(b, c, m) && SkipValue(wt, b).Some? && SkipValue(wt, b).value <= m
    ensures SkipValue(wt, c) == SkipValue(wt, b)
    decreases |b|, 1, 0
  {
    if FixedWireSize(wt) > 0 || wt == WT_STRING {
    } else if wt == WT_STRUCT {
      SkipFieldsLocal(b, c, m);
    } else if wt == WT_MAP {
      AgreeDrop(b, c, m, 6);
      SkipPairsLocal(b[0], b[1], b[6..], c[6..], m - 6, Get32(b[2..]));
    } else {
      AgreeDrop(b, c, m, 5);
      SkipElemsLocal(b[0], b[5..], c[5..], m - 5, Get32(b[1..]));
    }
  }

  lemma {:induction false} SkipFieldsLocal(b: seq<Byte>, c: seq<Byte>, m: nat)
    requires Agree(b, c, m) && SkipFields(b).Some? && SkipFields(b).value <= m
    ensures SkipFields(c) == SkipFields(b)
    decreases |b|, 0, 0
  {
    if b[0] != STOP {
      var k := 3 + SkipValue(b[0], b[3..]).value;
      AgreeDrop(b, c, m, 3);
      SkipValueLocal(b[0], b[3..], c[3..], m - 3);
      AgreeDrop(b, c, m, k);
      SkipFieldsLocal(b[k..], c[k..], m - k);
    }
  }

  lemma {:induction false} SkipElemsLocal(wt: Byte, b: seq<Byte>, c: seq<Byte>, m: nat, l: nat)
    requires Agree(b, c, m) && SkipElems(wt, b, l).Some? && SkipElems(wt, b, l).value <= m
    ensures SkipElems(wt, c, l) == SkipElems(wt, b, l)
    decreases |b|, 2, l
  {
    if l > 0 {
      var k := SkipValue(wt, b).value;
      SkipValueLocal(wt, b, c, m);
      AgreeDrop(b, c, m, k);
      SkipElemsLocal(wt, b[k..], c[k..], m - k, l - 1);
    }
  }

  lemma {:induction false} SkipPairLocal(kt: Byte, vt: Byte, b: seq<Byte>, c: seq<Byte>, m: nat)
    requires Agree(b, c, m) && SkipPair(kt, vt, b).Some? && SkipPair(kt, vt, b).value <= m
    ensures SkipPair(kt, vt, c) == SkipPair(kt, vt, b)
    decreases |b|, 2, 0
  {
    var k := SkipValue(kt, b).value;
    SkipValueLocal(kt, b, c, m);
    AgreeDrop(b, c, m, k);
    SkipValueLocal(vt, b[k..], c[k..], m - k);
  }

  lemma {:induction false} SkipPairsLocal(kt: Byte, vt: Byte, b: seq<Byte>, c: seq<Byte>, m: nat, l: nat)
    requires Agree(b, c, m) && SkipPairs(kt, vt, b, l).Some? && SkipPairs(kt, vt, b, l).value <= m
    ensures SkipPairs(kt, vt, c, l) == SkipPairs(kt, vt, b, l)
    decreases |b|, 3, l
  {
    if l > 0 {
      var k := SkipPair(kt, vt, b).value;
      SkipPairLocal(kt, vt, b, c, m);
      AgreeDrop(b, c, m, k);
      SkipPairsLocal(kt, vt, b[k..], c[k..], m - k, l - 1);
    }
  }
}
