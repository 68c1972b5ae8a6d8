/**
  The order in which descriptors are built (prefetchSubStructDesc and fetchStructDesc in
  internal/reflect/desc.go): one struct type after the other, as the fields mention them from
  left to right, keys in front of values, up to the first that fails.
 */
module FetchOrder {
  import opened Schema
  import opened DescGraph

  /** The struct types that a type mentions, from left to right. */
  function Names(t: Type): seq<Name> {
    match t
    case TMap(k, v) => Names(k) + Names(v)
    case TSet(e) => Names(e)
    case TList(e) => Names(e)
    case TStruct(name) => [name]
    case _ => []
  }

  function AllNames(ts: seq<Type>): seq<Name> {
    if ts == [] then [] else Names(ts[0]) + AllNames(ts[1..])
  }

  /** The struct types `ns` one after the other; what follows the first failure is not touched. */
  function FetchNames(W: World, s: State, ns: seq<Name>): Fetched
    decreases |ns|
  {
    if ns == [] then Fetched(s, true)
    else
      var r := Fetch(W, s, TStruct(ns[0]));
      if r.ok then FetchNames(W, r.st, ns[1..]) else r
  }

  lemma {:induction false} FetchBoth(W: World, s: State, a: seq<Name>, b: seq<Name>)
    ensures FetchNames(W, s, a + b)
      == var r := FetchNames(W, s, a); if r.ok then FetchNames(W, r.st, b) else r
    decreases |a|
  {
    hide Fetch;
    if a == [] {
      assert a + b == b;
    } else {
      assert (a + b)[1..] == a[1..] + b;
      var r := Fetch(W, s, TStruct(a[0]));
      if r.ok {
        FetchBoth(W, r.st, a[1..], b);
      }
    }
  }

  lemma FetchOne(W: World, s: State, name: Name)
    ensures FetchNames(W, s, [name]) == Fetch(W, s, TStruct(name))
  {
    hide Fetch;
    assert [name][1..] == [];
  }

  lemma FetchSteps(W: World, s: State, t: Type)
    ensures t.TMap? ==> Fetch(W, s, t) == var r := Fetch(W, s, t.key); if r.ok then Fetch(W, r.st, t.val) else r
    ensures t.TSet? || t.TList? ==> Fetch(W, s, t) == Fetch(W, s, t.elem)
    ensures !t.TMap? && !t.TSet? && !t.TList? && !t.TStruct? ==> Fetch(W, s, t) == Fetched(s, true)
  {
    hide NewDesc;
  }

  /** A type is fetched name by name. */
  lemma {:induction false} FetchInOrder(W: World, s: State, t: Type)
    ensures Fetch(W, s, t) == FetchNames(W, s, Names(t))
    decreases t
  {
    hide Fetch;
    FetchSteps(W, s, t);
    match t
    case TMap(k, v) =>
      FetchInOrder(W, s, k);
      FetchBoth(W, s, Names(k), Names(v));
      if Fetch(W, s, k).ok {
        FetchInOrder(W, Fetch(W, s, k).st, v);
      }
    case TSet(e) => FetchInOrder(W, s, e);
    case TList(e) => FetchInOrder(W, s, e);
    case TStruct(name) => FetchOne(W, s, name);
    case _ =>
  }

  /** The fields of a struct are fetched name by name, in the order of the fields. */
  lemma {:induction false} FieldsInOrder(W: World, s: State, ts: seq<Type>, i: nat)
    requires i <= |ts|
    ensures FetchAll(W, s, ts, i) == FetchNames(W, s, AllNames(ts[i..]))
    decreases |ts| - i
  {
    hide Fetch, FetchNames;
    if i < |ts| {
      assert ts[i..][1..] == ts[i + 1..];
      FetchInOrder(W, s, ts[i]);
      FetchBoth(W, s, Names(ts[i]), AllNames(ts[i + 1..]));
      if Fetch(W, s, ts[i]).ok {
        FieldsInOrder(W, Fetch(W, s, ts[i]).st, ts, i + 1);
      }
    } else {
      NothingToFetch(W, s);
    }
  }

  lemma NothingToFetch(W: World, s: State)
    ensures FetchNames(W, s, []) == Fetched(s, true)
  {
  }
}
