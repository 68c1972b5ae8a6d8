/**
  Byte slices with Go's append: bytes are written into the backing array as long as its
  capacity lasts; after that a new array of unspecified capacity takes over.
 */
module GoSlice {
  import opened Common

  /** The first `len` bytes of `arr`; the capacity is arr.Length. */
  datatype Slice = Slice(arr: array<Byte>, len: nat) {
    predicate Valid() {
      len <= arr.Length
    }

    function Bytes(): seq<Byte>
      requires Valid()
      reads arr
    {
      arr[..len]
    }

    ghost function Snapshot(): (s: State)
      requires Valid()
      reads arr
      ensures s.Valid()
    {
      State(arr, arr[..], len)
    }
  }

  /** A slice together with the whole content of its backing array. */
  datatype State = State(arr: array<Byte>, all: seq<Byte>, len: nat) {
    predicate Valid() {
      len <= |all|
    }
  }

  /**
    Appending `xs` leads from `s` to `t`: the bytes are added behind those of `s`; if they
    fit, the array stays the same and keeps what lies behind them.
   */
  ghost predicate Grown(s: State, t: State, xs: seq<Byte>) {
    && s.Valid() && t.Valid()
    && t.len == s.len + |xs|
    && t.all[..t.len] == s.all[..s.len] + xs
    && (t.len <= |s.all| ==> t.arr == s.arr && |t.all| == |s.all| && t.all[t.len..] == s.all[t.len..])
  }

  lemma GrownByNothing(s: State)
    requires s.Valid()
    ensures Grown(s, s, [])
  {
  }

  lemma GrownTwice(s: State, t: State, u: State, xs: seq<Byte>, ys: seq<Byte>)
    requires Grown(s, t, xs) && Grown(t, u, ys)
    ensures Grown(s, u, xs + ys)
  {
    assert u.all[..u.len] == s.all[..s.len] + xs + ys;
    if u.len <= |s.all| {
      assert t.all[t.len..][|ys|..] == t.all[u.len..] && s.all[t.len..][|ys|..] == s.all[u.len..];
    }
  }

  /** `r` is what appending `xs` to `b` returns. */
  twostate predicate Extends(b: Slice, new r: Slice, xs: seq<Byte>)
    requires b.Valid()
    reads b.arr, r.arr
  {
    r.Valid() && Grown(old(b.Snapshot()), r.Snapshot(), xs) && (r.arr == b.arr || fresh(r.arr))
  }

  method Append(b: Slice, xs: seq<Byte>) returns (r: Slice)
    requires b.Valid()
    modifies b.arr
    ensures Extends(b, r, xs)
  {
    var n := b.len + |xs|;
    if n <= b.arr.Length {
      forall i | 0 <= i < |xs| {
        b.arr[b.len + i] := xs[i];
      }
      r := Slice(b.arr, n);
    } else {
      var capacity :| capacity >= n;
      var grown := new Byte[capacity];
      forall i | 0 <= i < b.len {
        grown[i] := b.arr[i];
      }
      forall i | 0 <= i < |xs| {
        grown[b.len + i] := xs[i];
      }
      r := Slice(grown, n);
    }
  }
}
