/**
  The checks of container lengths (minWireSize and decodeType, internal/reflect/decoder.go) are
  as sharp as they can be without looking at the elements: a length is refused if and only if
  no bytes whatsoever, as many as are left in the buffer, could be that many elements.
 */
module LengthChecks {
  import opened Common
  import opened BigEndian
  import opened Schema
  import opened Skip
  import opened SelfDelimiting
  import opened Decoding
  import opened DepthBudget

  // ----- The shortest values

  function ZeroBytes(n: nat): (z: seq<Byte>)
    ensures |z| == n && forall k :: 0 <= k < n ==> z[k] == 0
  {
    seq(n, _ => 0)
  }

  /** `n` zero bytes begin with a value of the least size, for the wire types of all types. */
  lemma ShortestValue(t: Type, n: nat)
    requires n >= MinWireSize(WireType(t))
    ensures SkipValue(WireType(t), ZeroBytes(n)) == Some(MinWireSize(WireType(t)))
  {
    WireTypeIsOneOf(t);
    hide WireType, ZeroBytes;
    var z := ZeroBytes(n);
    if |z| >= 6 {
      NoBytesNoItems(z);
    }
  }

  lemma WireTypeIsOneOf(t: Type)
    ensures WireType(t) in {WT_BOOL, WT_BYTE, WT_DOUBLE, WT_I16, WT_I32, WT_I64, WT_STRING, WT_STRUCT, WT_MAP, WT_SET,
                            WT_LIST}
  {
  }

  lemma NoBytesNoItems(z: seq<Byte>)
    requires |z| >= 6 && forall k :: 0 <= k < |z| ==> z[k] == 0
    ensures Get32(z[2..]) == 0 && SkipPairs(z[0], z[1], z[6..], 0) == Some(0)
  {
  }

  /** The table is exact: the least number of bytes of a value is attained, and never undercut. */
  lemma MinWireSizeIsLeast(t: Type)
    ensures exists b :: |b| == MinWireSize(WireType(t)) && SkipValue(WireType(t), b) == Some(|b|)
    ensures forall b :: SkipValue(WireType(t), b).Some? ==> SkipValue(WireType(t), b).value >= MinWireSize(WireType(t))
  {
    hide SkipValue, MinWireSize, WireType;
    var m := MinWireSize(WireType(t));
    ShortestValue(t, m);
    assert |ZeroBytes(m)| == m;
    forall b | SkipValue(WireType(t), b).Some? ensures SkipValue(WireType(t), b).value >= m {
      MinWireSizeBound(WireType(t), b);
    }
  }

  // ----- That many of them

  lemma ZeroBytesDrop(n: nat, k: nat)
    requires k <= n
    ensures ZeroBytes(n)[k..] == ZeroBytes(n - k)
  {
  }

  lemma {:induction false} ShortestElems(t: Type, l: nat, n: nat)
    requires n >= l * MinWireSize(WireType(t))
    ensures SkipElems(WireType(t), ZeroBytes(n), l).Some?
    decreases l
  {
    hide SkipValue, MinWireSize, WireType, ZeroBytes;
    if l > 0 {
      var m := MinWireSize(WireType(t));
      OneLess(l, m);
      ShortestValue(t, n);
      ZeroBytesDrop(n, m);
      ShortestElems(t, l - 1, n - m);
    }
  }

  lemma OneLess(l: nat, m: nat)
    requires l > 0
    ensures l * m == m + (l - 1) * m && (l - 1) * m >= 0
  {
    Monotone(0, l - 1, m);
  }

  lemma {:induction false} ShortestPairs(kt: Type, vt: Type, l: nat, n: nat)
    requires n >= l * (MinWireSize(WireType(kt)) + MinWireSize(WireType(vt)))
    ensures SkipPairs(WireType(kt), WireType(vt), ZeroBytes(n), l).Some?
    decreases l
  {
    hide SkipValue, MinWireSize, WireType, ZeroBytes;
    if l > 0 {
      var j, k := MinWireSize(WireType(kt)), MinWireSize(WireType(vt));
      OneLess(l, j + k);
      ShortestValue(kt, n);
      ZeroBytesDrop(n, j);
      ShortestValue(vt, n - j);
      ZeroBytesDrop(n, j + k);
      ShortestPairs(kt, vt, l - 1, n - j - k);
    }
  }

  /** Some `n` bytes are `l` elements of a wire type, with or without more behind them. */
  ghost predicate ElemsPossible(wt: Byte, l: nat, n: nat) {
    exists b :: |b| == n && SkipElems(wt, b, l).Some?
  }

  ghost predicate PairsPossible(kt: Byte, vt: Byte, l: nat, n: nat) {
    exists b :: |b| == n && SkipPairs(kt, vt, b, l).Some?
  }

  lemma ElemsPossibleIff(t: Type, l: nat, n: nat)
    ensures ElemsPossible(WireType(t), l, n) <==> l * MinWireSize(WireType(t)) <= n
  {
    hide SkipElems, MinWireSize, WireType;
    if ElemsPossible(WireType(t), l, n) {
      var b :| |b| == n && SkipElems(WireType(t), b, l).Some?;
      SkipElemsBound(WireType(t), b, l);
    }
    if l * MinWireSize(WireType(t)) <= n {
      ShortestElems(t, l, n);
      assert |ZeroBytes(n)| == n;
    }
  }

  lemma PairsPossibleIff(kt: Type, vt: Type, l: nat, n: nat)
    ensures PairsPossible(WireType(kt), WireType(vt), l, n)
      <==> l * (MinWireSize(WireType(kt)) + MinWireSize(WireType(vt))) <= n
  {
    hide SkipPairs, MinWireSize, WireType;
    if PairsPossible(WireType(kt), WireType(vt), l, n) {
      var b :| |b| == n && SkipPairs(WireType(kt), WireType(vt), b, l).Some?;
      SkipPairsBound(WireType(kt), WireType(vt), b, l);
    }
    if l * (MinWireSize(WireType(kt)) + MinWireSize(WireType(vt))) <= n {
      ShortestPairs(kt, vt, l, n);
      assert |ZeroBytes(n)| == n;
    }
  }

  lemma RoomIsQuotient(l: nat, m: nat, n: nat)
    requires m > 0
    ensures l <= Room(n, m) <==> l * m <= n
  {
    if l <= n / m {
      Monotone(l, n / m, m);
    } else {
      Monotone(n / m + 1, l, m);
    }
  }

  // ----- The decoder

  /**
    A list or set behind a sound header of a positive length is refused for its length, at
    offset 5 and before any element, if and only if no bytes of the number left could be its
    elements. Otherwise the elements are decoded.
   */
  lemma ListLengthCheck(S: Schema, et: Type, b: seq<Byte>, depth: nat)
    requires depth > 0 && |b| >= 5 && b[0] == WireType(et) && 0 < Get32(b[1..]) < TWO_31
    ensures var l := Get32(b[1..]);
      DecodeList(S, et, b, depth)
      == if ElemsPossible(WireType(et), l, |b| - 5) then DecodeElems(S, et, b, 5, l, [], depth - 1)
         else Err(5, SizeExceedsBuffer)
  {
    hide DecodeElems, ElemsPossible, MinWireSize, WireType, Room, Get32, Built;
    WireTypeHasSize(et);
    ElemsPossibleIff(et, Get32(b[1..]), |b| - 5);
    RoomIsQuotient(Get32(b[1..]), MinWireSize(WireType(et)), |b| - 5);
  }

  /** The same for a map, at offset 6. An empty map passes. */
  lemma MapLengthCheck(S: Schema, kt: Type, vt: Type, b: seq<Byte>, depth: nat)
    requires depth > 0 && |b| >= 6 && b[0] == WireType(kt) && b[1] == WireType(vt) && Get32(b[2..]) < TWO_31
    ensures var l := Get32(b[2..]);
      DecodeMap(S, kt, vt, b, depth)
      == if PairsPossible(WireType(kt), WireType(vt), l, |b| - 6) then DecodeEntries(S, kt, vt, b, 6, l, [], depth - 1)
         else Err(6, SizeExceedsBuffer)
  {
    hide DecodeEntries, PairsPossible, MinWireSize, WireType, Room, Get32, Built;
    WireTypeHasSize(kt);
    PairsPossibleIff(kt, vt, Get32(b[2..]), |b| - 6);
    RoomIsQuotient(Get32(b[2..]), MinWireSize(WireType(kt)) + MinWireSize(WireType(vt)), |b| - 6);
  }
}
