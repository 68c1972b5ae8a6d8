/** Small types shared by the whole model. */
module Common {

  datatype Option<+T> = None | Some(value: T)

  /** One octet of a Thrift message. */
  type Byte = n: nat | n < 256

  const TWO_31: nat := 0x8000_0000
  const TWO_32: nat := 0x1_0000_0000
  const TWO_64: nat := 0x1_0000_0000_0000_0000

  function Max(a: nat, b: nat): nat {
    if a < b then b else a
  }

  /** The first `n` elements of `b` and `c` are the same. */
  ghost predicate Agree<T>(b: seq<T>, c: seq<T>, n: nat) {
    n <= |b| && n <= |c| && forall i :: 0 <= i < n ==> b[i] == c[i]
  }

  lemma AgreeDrop<T>(b: seq<T>, c: seq<T>, n: nat, k: nat)
    requires Agree(b, c, n) && k <= n
    ensures Agree(b[k..], c[k..], n - k)
  {
  }

  lemma Assoc<T>(a: seq<T>, b: seq<T>, c: seq<T>)
    ensures (a + b) + c == a + (b + c)
  {
  }

  lemma DropPrefix<T>(a: seq<T>, b: seq<T>)
    ensures (a + b)[|a|..] == b
  {
  }

  lemma DropDrop<T>(a: seq<T>, i: nat, k: nat)
    requires i + k <= |a|
    ensures a[i..][k..] == a[i + k..]
  {
  }

  lemma Monotone(a: int, b: int, m: nat)
    requires a <= b
    ensures a * m <= b * m
  {
  }

  lemma EmptySides<A>(s: seq<A>)
    ensures [] + s == s && s + [] == s
  {
  }
}
