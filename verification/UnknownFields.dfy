/**
  Positions of the unknown fields of a message (internal/reflect/unknownfields.go): noted
  while decoding, copied out of the buffer once at the end.
 */
module UnknownFields {
  import opened Common

  datatype Idx = Idx(off: nat, sz: nat)

  predicate Within(offs: seq<Idx>, n: nat) {
    forall k :: 0 <= k < |offs| ==> offs[k].off + offs[k].sz <= n
  }

  /** The noted pieces of `b`, one after the other. */
  function Pieces(b: seq<Byte>, offs: seq<Idx>): seq<Byte>
    requires Within(offs, |b|)
  {
    if offs == [] then []
    else
      var l := |offs| - 1;
      Pieces(b, offs[..l]) + b[offs[l].off..offs[l].off + offs[l].sz]
  }

  function TotalSize(offs: seq<Idx>): nat {
    if offs == [] then 0 else TotalSize(offs[..|offs| - 1]) + offs[|offs| - 1].sz
  }

  lemma {:induction false} PiecesLength(b: seq<Byte>, offs: seq<Idx>)
    requires Within(offs, |b|)
    ensures |Pieces(b, offs)| == TotalSize(offs)
  {
    if offs != [] {
      PiecesLength(b, offs[..|offs| - 1]);
    }
  }

  /** The total of a list is at least the total of any prefix of it. */
  lemma {:induction false} TotalOfPrefix(offs: seq<Idx>, k: nat)
    requires k <= |offs|
    ensures TotalSize(offs[..k]) <= TotalSize(offs)
    decreases |offs|
  {
    if k == |offs| {
      assert offs[..k] == offs;
    } else {
      var l := |offs| - 1;
      assert offs[..l][..k] == offs[..k];
      TotalOfPrefix(offs[..l], k);
    }
  }

  /** The next piece is appended to those before it. */
  lemma OneMore(b: seq<Byte>, offs: seq<Idx>, k: nat)
    requires Within(offs, |b|) && k < |offs|
    ensures Pieces(b, offs[..k + 1]) == Pieces(b, offs[..k]) + b[offs[k].off..offs[k].off + offs[k].sz]
    ensures TotalSize(offs[..k + 1]) == TotalSize(offs[..k]) + offs[k].sz <= TotalSize(offs)
  {
    assert offs[..k + 1][..k] == offs[..k];
    TotalOfPrefix(offs, k + 1);
  }

  /** copy(dst[at:], src), where src fits. */
  method CopyInto(dst: array<Byte>, at: nat, src: seq<Byte>)
    requires at + |src| <= dst.Length
    modifies dst
    ensures dst[..at + |src|] == old(dst[..at]) + src
  {
    forall i | 0 <= i < |src| {
      dst[at + i] := src[i];
    }
  }

  class UnknownFields {
    var sz: nat
    var offs: seq<Idx>

    ghost predicate Valid()
      reads this
    {
      sz == TotalSize(offs)
    }

    /** What the pool hands out: the fields are those of the last user. */
    constructor () {
      sz, offs := *, *;
    }

    method Reset()
      modifies this
      ensures Valid() && offs == []
    {
      sz, offs := 0, [];
    }

    method Add(off: nat, n: nat)
      requires Valid()
      modifies this
      ensures Valid() && offs == old(offs) + [Idx(off, n)]
    {
      offs := offs + [Idx(off, n)];
      sz := sz + n;
      assert offs[..|offs| - 1] == old(offs);
    }

    /** Every byte of every noted piece, in the order of the message, and nothing else. */
    method Copy(b: seq<Byte>) returns (ret: array<Byte>)
      requires Valid() && Within(offs, |b|)
      ensures fresh(ret) && ret[..] == Pieces(b, offs)
    {
      ret := new Byte[sz];
      var off, k := 0, 0;
      while k < |offs|
        invariant 0 <= k <= |offs|
        invariant off == TotalSize(offs[..k]) <= ret.Length
        invariant ret[..off] == Pieces(b, offs[..k])
      {
        var x := offs[k];
        OneMore(b, offs, k);
        CopyInto(ret, off, b[x.off..x.off + x.sz]);
        off, k := off + x.sz, k + 1;
      }
      assert offs[..k] == offs;
      assert ret[..] == ret[..off];
    }
  }
}
