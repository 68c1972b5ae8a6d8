/**
  The bump allocator of the decoder (internal/reflect/span.go): aligned pieces cut from
  blocks, a new block whenever the current one might not hold the next piece. The Go heap is
  not modelled; where a block comes from is a parameter, an address range disjoint from all
  blocks that are in use.
 */
module Span {
  import opened Alignment

  const BLOCK: nat := 2048   // defaultDecoderMemSize

  datatype Region = Region(start: nat, size: nat) {
    function End(): nat {
      start + size
    }
  }

  predicate Apart(a: Region, b: Region) {
    a.End() <= b.start || b.End() <= a.start
  }

  predicate Inside(a: Region, b: Region) {
    b.start <= a.start && a.End() <= b.End()
  }

  /** A piece of memory that was handed out, and what had been asked for. */
  datatype Piece = Piece(mem: Region, block: nat, align: nat)

  /** Bytes that a request can take out of a block. */
  function Need(p: Piece): nat
    requires p.align > 0
  {
    p.mem.size + p.align - 1
  }

  predicate PowerOfTwo(align: nat) {
    exists k: nat :: k <= WORD && align == Pow2(k)
  }

  /** All blocks lie apart from each other. */
  ghost predicate BlocksApart(blocks: seq<Region>) {
    forall i, j :: 0 <= i < j < |blocks| ==> Apart(blocks[i], blocks[j])
  }

  ghost predicate PieceFits(blocks: seq<Region>, q: Piece) {
    q.block < |blocks| && Inside(q.mem, blocks[q.block]) && q.align > 0 && Aligned(q.mem.start, q.align)
  }

  /** All pieces lie in their blocks, are aligned, and lie apart from each other. */
  ghost predicate PiecesSafe(blocks: seq<Region>, pieces: seq<Piece>) {
    && (forall i :: 0 <= i < |pieces| ==> PieceFits(blocks, pieces[i]))
    && (forall i, j :: 0 <= i < j < |pieces| ==> Apart(pieces[i].mem, pieces[j].mem))
  }

  /** Bytes that all requests together can take out of the blocks. */
  function TotalNeed(pieces: seq<Piece>): nat
    requires forall i :: 0 <= i < |pieces| ==> pieces[i].align > 0
  {
    if pieces == [] then 0 else TotalNeed(pieces[..|pieces| - 1]) + Need(pieces[|pieces| - 1])
  }

  /** Size and alignment of each request, added up. */
  lemma NeedOf(pieces: seq<Piece>, q: Piece)
    requires q.align > 0 && forall i :: 0 <= i < |pieces| ==> pieces[i].align > 0
    ensures TotalNeed([]) == 0
    ensures TotalNeed(pieces + [q]) == TotalNeed(pieces) + q.mem.size + (q.align - 1)
  {
    assert (pieces + [q])[..|pieces|] == pieces;
  }

  /** `p` bytes of the last block, which starts at `b` and has `n` bytes, are in use. */
  ghost predicate Safe(p: nat, b: nat, n: nat, blocks: seq<Region>, pieces: seq<Piece>) {
    && p <= n && b + n < Pow2(WORD)
    && blocks != [] && blocks[|blocks| - 1] == Region(b, n)
    && BlocksApart(blocks)
    && PiecesSafe(blocks, pieces)
    && forall i :: 0 <= i < |pieces| && pieces[i].block == |blocks| - 1 ==> pieces[i].mem.End() <= b + p
  }

  /** What is safe: no address belongs to two pieces, and each piece lies in its aligned place. */
  lemma NoAddressTwice(p: nat, b: nat, n: nat, blocks: seq<Region>, pieces: seq<Piece>, i: nat, j: nat, x: nat)
    requires Safe(p, b, n, blocks, pieces) && i < |pieces| && j < |pieces|
    requires pieces[i].mem.start <= x < pieces[i].mem.start + pieces[i].mem.size
    requires pieces[j].mem.start <= x < pieces[j].mem.start + pieces[j].mem.size
    ensures i == j
    ensures pieces[i].align > 0 && pieces[i].mem.start % pieces[i].align == 0
    ensures pieces[i].block < |blocks|
    ensures blocks[pieces[i].block].start <= x < blocks[pieces[i].block].start + blocks[pieces[i].block].size
  {
    assert PieceFits(blocks, pieces[i]);
  }

  lemma OpenBlock(p: nat, b: nat, n: nat, blocks: seq<Region>, pieces: seq<Piece>, r: Region)
    requires Safe(p, b, n, blocks, pieces) && r.End() < Pow2(WORD)
    requires forall i :: 0 <= i < |blocks| ==> Apart(blocks[i], r)
    ensures Safe(0, r.start, r.size, blocks + [r], pieces)
  {
    hide Pow2;
    forall i | 0 <= i < |pieces| ensures PieceFits(blocks + [r], pieces[i]) && pieces[i].block < |blocks| {
      assert PieceFits(blocks, pieces[i]);
    }
  }

  lemma CutPiece(p: nat, b: nat, n: nat, blocks: seq<Region>, pieces: seq<Piece>, mem: Region, align: nat)
    requires Safe(p, b, n, blocks, pieces) && align > 0 && Aligned(mem.start, align)
    requires b + p <= mem.start && mem.End() <= b + n
    ensures Safe(mem.End() - b, b, n, blocks, pieces + [Piece(mem, |blocks| - 1, align)])
  {
    hide Pow2, Aligned;
    var l := |blocks| - 1;
    assert PieceFits(blocks, Piece(mem, l, align));
    forall i | 0 <= i < |pieces| ensures Apart(pieces[i].mem, mem) {
      assert PieceFits(blocks, pieces[i]);
      if pieces[i].block < l {
        assert Apart(blocks[pieces[i].block], blocks[l]);
      }
    }
  }

  class Span {
    var p: nat
    var b: nat
    var n: nat
    ghost var blocks: seq<Region>
    ghost var pieces: seq<Piece>

    ghost predicate Valid()
      reads this
    {
      Safe(p, b, n, blocks, pieces)
    }

    /** init: the first block, at `addr`. */
    constructor (addr: nat)
      requires addr + BLOCK < Pow2(WORD)
      ensures Valid() && pieces == [] && blocks == [Region(addr, BLOCK)] && p == 0
    {
      p, b, n := 0, addr, BLOCK;
      blocks, pieces := [Region(addr, BLOCK)], [];
    }

    /** The size of the block that Malloc would ask for. */
    static function NextBlock(size: nat, align: nat): nat {
      if size + align - 1 > BLOCK then size + align - 1 else BLOCK
    }

    /**
      `size` bytes at the first free address of the block that is aligned to `align`. `addr`
      is where the Go heap puts a new block, should one be needed.
     */
    method Malloc(size: nat, align: nat, addr: nat) returns (ret: nat)
      requires Valid() && PowerOfTwo(align) && align > 0
      requires addr + NextBlock(size, align) < Pow2(WORD)
      requires forall i :: 0 <= i < |blocks| ==> Apart(blocks[i], Region(addr, NextBlock(size, align)))
      modifies this
      ensures Valid()
      ensures blocks == if old(p) + size + (align - 1) > old(n)
        then old(blocks) + [Region(addr, if size + align > 2049 then size + align - 1 else 2048)] else old(blocks)
      ensures pieces == old(pieces) + [Piece(Region(ret, size), |blocks| - 1, align)]
      ensures b + p == ret + size
      ensures var free := if blocks == old(blocks) then b + old(p) else b;
        free <= ret < free + align && forall y :: free <= y < ret ==> !Aligned(y, align)
    {
      hide Safe, Padding, Pow2, Apart, Aligned;
      var mask := align - 1;
      InBlock(p, b, n, blocks, pieces);
      if p + size + mask > n {
        var sz := BLOCK;
        if size + mask > sz {
          sz := size + mask;
        }
        OpenBlock(p, b, n, blocks, pieces, Region(addr, sz));
        p, b, n := 0, addr, sz;
        blocks := blocks + [Region(addr, sz)];
      }
      var k: nat :| k <= WORD && align == Pow2(k);
      LeastPadding(b + p, k);
      var off := Padding(b + p, align);
      ret := b + p + off;
      CutPiece(p, b, n, blocks, pieces, Region(ret, size), align);
      p := p + size + off;
      pieces := pieces + [Piece(Region(ret, size), |blocks| - 1, align)];
    }
  }

  lemma InBlock(p: nat, b: nat, n: nat, blocks: seq<Region>, pieces: seq<Piece>)
    requires Safe(p, b, n, blocks, pieces)
    ensures p <= n && b + n < Pow2(WORD) && blocks != [] && blocks[|blocks| - 1] == Region(b, n)
  {
  }

  // ----- The requests of the decoder (tDecoder.Malloc in internal/reflect/decoder.go)

  const LARGE: nat := BLOCK / 8
  const MAX_ALIGN: nat := 8

  /** Bytes of a block that are in use when the decoder gives it up. */
  const MIN_USED: nat := BLOCK - LARGE - MAX_ALIGN + 2

  /** The sizes as numbers: defaultDecoderMemSize, an eighth of it, and what the padding leaves. */
  lemma SpanNumbers()
    ensures BLOCK == 2048 && LARGE == 256 && MAX_ALIGN == 8 && MIN_USED == 1786
  {
  }

  /** Only decoder requests have been made, and they pay for the blocks. */
  ghost predicate Thrifty(p: nat, n: nat, blocks: seq<Region>, pieces: seq<Piece>) {
    && n == BLOCK && blocks != []
    && (forall i :: 0 <= i < |pieces| ==> pieces[i].align > 0)
    && TotalNeed(pieces) >= MIN_USED * (|blocks| - 1) + p
  }

  /** A piece pays for what it takes, and a block that is given up has been paid for. */
  lemma StaysThrifty(p: nat, n: nat, blocks: seq<Region>, pieces: seq<Piece>, p1: nat, n1: nat, blocks1: seq<Region>,
                     q: Piece)
    requires Thrifty(p, n, blocks, pieces) && q.align > 0
    requires if |blocks1| == |blocks| then n1 == n && p1 <= p + Need(q)
      else |blocks1| == |blocks| + 1 && p >= MIN_USED && n1 == BLOCK && p1 <= Need(q)
    ensures Thrifty(p1, n1, blocks1, pieces + [q])
  {
    assert (pieces + [q])[..|pieces|] == pieces;
  }

  lemma PaidFor(t: nat, k: nat)
    requires t >= MIN_USED * k
    ensures k <= t / MIN_USED
  {
    assert MIN_USED == 1786;
    assert t < 1786 * (t / 1786 + 1);
  }

  /** The number of blocks that the requests so far can have used. */
  lemma BlockBound(p: nat, n: nat, blocks: seq<Region>, pieces: seq<Piece>)
    requires Thrifty(p, n, blocks, pieces)
    ensures |blocks| <= 1 + TotalNeed(pieces) / MIN_USED
  {
    hide TotalNeed;
    PaidFor(TotalNeed(pieces), |blocks| - 1);
  }

  /** The allocating side of tDecoder. */
  class Memory {
    const s: Span

    ghost predicate Valid()
      reads s
    {
      s.Valid() && Thrifty(s.p, s.n, s.blocks, s.pieces)
    }

    constructor (addr: nat)
      requires addr + BLOCK < Pow2(WORD)
      ensures Valid() && fresh(s) && s.pieces == []
    {
      s := new Span(addr);
    }

    /**
      Small objects without pointers come from the span, all others from the Go heap at
      `addr`. A block of 2048 bytes is given up only when at least 1786 of them are in use.
     */
    method Malloc(size: nat, align: nat, hasPointers: bool, addr: nat) returns (ret: nat)
      requires Valid() && PowerOfTwo(align) && 0 < align <= MAX_ALIGN
      requires addr + BLOCK < Pow2(WORD)
      requires forall i :: 0 <= i < |s.blocks| ==> Apart(s.blocks[i], Region(addr, BLOCK))
      modifies s
      ensures Valid()
      ensures size > 256 || hasPointers ==> ret == addr && s.blocks == old(s.blocks) && s.pieces == old(s.pieces)
      ensures !(size > 256 || hasPointers) ==>
        s.pieces == old(s.pieces) + [Piece(Region(ret, size), |s.blocks| - 1, align)]
      ensures s.blocks != old(s.blocks) ==> old(s.p) >= 1786 && s.blocks == old(s.blocks) + [Region(addr, 2048)]
      ensures |s.blocks| <= 1 + TotalNeed(s.pieces) / 1786
    {
      SpanNumbers();
      hide Safe, Pow2, Apart, Thrifty, Aligned;
      if size > LARGE || hasPointers {
        BlockBound(s.p, s.n, s.blocks, s.pieces);
        return addr;
      }
      ghost var p, n, blocks, pieces := s.p, s.n, s.blocks, s.pieces;
      SpanIsThrifty(p, n, blocks, pieces);
      InBlock(p, s.b, n, blocks, pieces);
      ret := s.Malloc(size, align, addr);
      InBlock(s.p, s.b, s.n, s.blocks, s.pieces);
      StaysThrifty(p, n, blocks, pieces, s.p, s.n, s.blocks, s.pieces[|pieces|]);
      BlockBound(s.p, s.n, s.blocks, s.pieces);
    }
  }

  lemma SpanIsThrifty(p: nat, n: nat, blocks: seq<Region>, pieces: seq<Piece>)
    requires Thrifty(p, n, blocks, pieces)
    ensures n == BLOCK && forall i :: 0 <= i < |pieces| ==> pieces[i].align > 0
  {
  }
}
