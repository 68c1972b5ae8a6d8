/**
  Building descriptors for struct types that refer to each other (internal/reflect/desc.go,
  createStructDesc and below): depth first, with a cache that cuts cycles, and with a link
  from every struct-typed type to its descriptor.
 */
module DescGraph {
  import opened Common
  import opened Schema

  /**
    The struct types of a program: the types of the fields, or None if DoResolveFields
    rejects the struct.
   */
  type World = map<Name, Option<seq<Type>>>

  /** Types that a descriptor is cached for: the struct itself, or the pointer to it. */
  datatype Key = OfStruct(name: Name) | OfPointer(name: Name)

  /**
    `descs` are all descriptors ever allocated, by the struct they describe; `cache` is
    prefetchStructDescCache; `links` holds the Sd of the pointer type of each struct; `sds` is
    the published map.
   */
  datatype State = State(descs: seq<Name>, cache: map<Key, nat>, links: map<Name, nat>, sds: map<Key, nat>)

  function Initial(): State {
    State([], map[], map[], map[])
  }

  predicate Resolves(W: World, name: Name) {
    name in W && W[name].Some?
  }

  function AllKeys(W: World): set<Key> {
    (set n | n in W.Keys :: OfStruct(n)) + (set n | n in W.Keys :: OfPointer(n))
  }

  /** The termination measure: what is not in the cache yet. */
  function Unbuilt(W: World, s: State): set<Key> {
    AllKeys(W) - s.cache.Keys
  }

  /** Nothing that was allocated, cached or linked is forgotten or changed. */
  ghost predicate Extends(s: State, t: State) {
    && s.descs <= t.descs
    && s.cache.Keys <= t.cache.Keys && (forall k :: k in s.cache ==> t.cache[k] == s.cache[k])
    && KeepsLinks(s, t)
  }

  /** No link changes, and the published map is left alone. */
  ghost predicate KeepsLinks(s: State, t: State) {
    && |s.descs| <= |t.descs|
    && s.links.Keys <= t.links.Keys && (forall n :: n in s.links ==> t.links[n] == s.links[n])
    && s.sds == t.sds
  }

  datatype Built = Built(st: State, id: Option<nat>)
  datatype Fetched = Fetched(st: State, ok: bool)

  /** newStructDescAndPrefetch */
  function NewDesc(W: World, s: State, k: Key): (r: Built)
    ensures r.id.Some? ==> Extends(s, r.st) && k in r.st.cache && r.st.cache[k] == r.id.value
    ensures KeepsLinks(s, r.st)
    decreases Unbuilt(W, s), 0
  {
    if k in s.cache then Built(s, Some(s.cache[k]))
    else if !Resolves(W, k.name) then Built(s, None)
    else
      var s1 := Allocate(s, k);
      assert k in Unbuilt(W, s) && k !in Unbuilt(W, s1);
      var r := FetchAll(W, s1, W[k.name].value, 0);
      if r.ok then Built(r.st, Some(|s.descs|)) else Built(Evict(r.st, k), None)
  }

  /** A new descriptor, cached before its fields are looked at. */
  function Allocate(s: State, k: Key): State {
    s.(descs := s.descs + [k.name], cache := s.cache[k := |s.descs|])
  }

  function Evict(s: State, k: Key): State {
    s.(cache := s.cache - {k})
  }

  /** prefetchSubStructDesc, from field `i` on */
  function FetchAll(W: World, s: State, ts: seq<Type>, i: nat): (r: Fetched)
    requires i <= |ts|
    ensures r.ok ==> Extends(s, r.st)
    ensures KeepsLinks(s, r.st)
    decreases Unbuilt(W, s), 2, |ts| - i
  {
    if i == |ts| then Fetched(s, true)
    else
      var r := Fetch(W, s, ts[i]);
      if r.ok then FetchAll(W, r.st, ts, i + 1) else r
  }

  /** fetchStructDesc */
  function Fetch(W: World, s: State, t: Type): (r: Fetched)
    ensures r.ok ==> Extends(s, r.st)
    ensures KeepsLinks(s, r.st)
    decreases Unbuilt(W, s), 1, t
  {
    match t
    case TMap(kt, vt) =>
      var r := Fetch(W, s, kt);
      if r.ok then Fetch(W, r.st, vt) else r
    case TSet(e) => Fetch(W, s, e)
    case TList(e) => Fetch(W, s, e)
    case TStruct(name) =>
      if name in s.links then Fetched(s, true)
      else
        var r := NewDesc(W, s, OfPointer(name));
        if r.id.None? then Fetched(r.st, false)
        else Fetched(SetLink(r.st, name, r.id.value), true)
    case _ => Fetched(s, true)
  }

  function SetLink(s: State, name: Name, id: nat): State {
    s.(links := s.links[name := id])
  }

  /** createStructDesc, called with a struct or with a pointer to one */
  function Create(W: World, s: State, k: Key): (r: Built)
    ensures |s.descs| <= |r.st.descs| && s.links.Keys <= r.st.links.Keys
    ensures forall n :: n in s.links ==> r.st.links[n] == s.links[n]
    ensures forall j :: j in s.sds ==> j in r.st.sds
    ensures r.id.Some? ==> OfStruct(k.name) in r.st.sds
  {
    if OfStruct(k.name) in s.sds then Built(s, Some(s.sds[OfStruct(k.name)]))
    else
      var r := NewDesc(W, s, OfStruct(k.name));
      if r.id.None? then r else Built(Publish(r.st, k, r.id.value), r.id)
  }

  /** A struct and the pointer to it share the descriptor. */
  function Publish(s: State, k: Key, id: nat): State {
    s.(sds := s.sds[OfStruct(k.name) := id][k := id])
  }

  /** The state after any sequence of calls, failed or not. */
  function Run(W: World, calls: seq<Key>): State {
    if calls == [] then Initial() else Create(W, Run(W, calls[..|calls| - 1]), calls[|calls| - 1]).st
  }

  // ----- Struct types that a type mentions

  function Leaves(t: Type): set<Name> {
    match t
    case TMap(k, v) => Leaves(k) + Leaves(v)
    case TSet(e) => Leaves(e)
    case TList(e) => Leaves(e)
    case TStruct(name) => {name}
    case _ => {}
  }

  function AllLeaves(ts: seq<Type>, i: nat): set<Name>
    requires i <= |ts|
    decreases |ts| - i
  {
    if i == |ts| then {} else Leaves(ts[i]) + AllLeaves(ts, i + 1)
  }

  /** The struct types that the fields of a struct mention. */
  function Mentions(W: World, name: Name): set<Name> {
    if Resolves(W, name) then AllLeaves(W[name].value, 0) else {}
  }

  /** `G` can be built: all its structs resolve and mention only structs of `G`. */
  ghost predicate Buildable(W: World, G: set<Name>) {
    forall n :: n in G ==> Resolves(W, n) && Mentions(W, n) <= G
  }

  // ----- White, grey and black

  /** Every descriptor is that of the struct it is stored for. */
  ghost predicate Labelled(W: World, s: State) {
    && (forall k :: k in s.cache ==> Resolves(W, k.name) && s.cache[k] < |s.descs| && s.descs[s.cache[k]] == k.name)
    && (forall n :: n in s.links ==> Resolves(W, n) && s.links[n] < |s.descs| && s.descs[s.links[n]] == n)
    && (forall k :: k in s.sds ==> Resolves(W, k.name) && s.sds[k] < |s.descs| && s.descs[s.sds[k]] == k.name)
  }

  /**
    Among the structs of `G`: what is cached and not grey is black, that is, all types that it
    mentions are linked; what is linked is cached; what is published is cached.
   */
  ghost predicate Coloured(W: World, s: State, G: set<Name>, grey: set<Key>) {
    && (forall k :: k in s.cache && k !in grey && k.name in G ==> Mentions(W, k.name) <= s.links.Keys)
    && (forall n :: n in s.links && n in G ==> OfPointer(n) in s.cache && s.cache[OfPointer(n)] == s.links[n])
    && (forall k :: k in s.sds && k.name in G ==> OfStruct(k.name) in s.cache)
  }

  /** What building does to a state, given that `good` can be built. */
  ghost predicate Kept(W: World, t: State, ok: bool, G: set<Name>, grey: set<Key>, good: set<Name>) {
    Labelled(W, t) && (ok || G <= good ==> Coloured(W, t, G, grey))
  }

  lemma {:induction false} NewDescKeeps(W: World, s: State, k: Key, G: set<Name>, grey: set<Key>, good: set<Name>)
    requires Buildable(W, good) && Labelled(W, s) && Coloured(W, s, G, grey)
    ensures var r := NewDesc(W, s, k); Kept(W, r.st, r.id.Some?, G, grey, good)
    ensures k.name in good ==> NewDesc(W, s, k).id.Some?
    ensures NewDesc(W, s, k).id.Some? ==> Resolves(W, k.name)
    decreases Unbuilt(W, s), 0
  {
    hide Labelled, Coloured, FetchAll, Allocate, Evict, AllLeaves;
    if k in s.cache {
      CachedResolves(W, s, k);
    } else if Resolves(W, k.name) {
      var s1 := Allocate(s, k);
      Allocated(W, s, k);
      TurnsGrey(W, s, k, G, grey);
      FetchAllKeeps(W, s1, W[k.name].value, 0, G, grey + {k}, good);
      var r := FetchAll(W, s1, W[k.name].value, 0);
      if r.ok {
        TurnsBlack(W, r.st, k, G, grey);
      } else {
        TurnsWhite(W, r.st, k, G, grey, good);
      }
    }
  }

  lemma Allocated(W: World, s: State, k: Key)
    requires k !in s.cache && Resolves(W, k.name)
    ensures k in Unbuilt(W, s) && Unbuilt(W, Allocate(s, k)) < Unbuilt(W, s)
  {
    assert k in Unbuilt(W, s) && k !in Unbuilt(W, Allocate(s, k));
  }

  lemma CachedResolves(W: World, s: State, k: Key)
    requires Labelled(W, s) && k in s.cache
    ensures Resolves(W, k.name)
  {
  }

  lemma TurnsGrey(W: World, s: State, k: Key, G: set<Name>, grey: set<Key>)
    requires Labelled(W, s) && Coloured(W, s, G, grey) && k !in s.cache && Resolves(W, k.name)
    ensures Labelled(W, Allocate(s, k)) && Coloured(W, Allocate(s, k), G, grey + {k})
  {
    hide Mentions;
  }

  lemma TurnsBlack(W: World, s: State, k: Key, G: set<Name>, grey: set<Key>)
    requires Coloured(W, s, G, grey + {k}) && Mentions(W, k.name) <= s.links.Keys
    ensures Coloured(W, s, G, grey)
  {
    hide Mentions;
  }

  lemma TurnsWhite(W: World, s: State, k: Key, G: set<Name>, grey: set<Key>, good: set<Name>)
    requires Labelled(W, s) && (G <= good ==> Coloured(W, s, G, grey + {k})) && k.name !in good
    ensures Kept(W, Evict(s, k), false, G, grey, good)
  {
    hide Mentions;
  }

  lemma {:induction false} FetchAllKeeps(W: World, s: State, ts: seq<Type>, i: nat, G: set<Name>, grey: set<Key>,
          good: set<Name>)
    requires i <= |ts| && Buildable(W, good) && Labelled(W, s) && Coloured(W, s, G, grey)
    ensures var r := FetchAll(W, s, ts, i); Kept(W, r.st, r.ok, G, grey, good)
    ensures AllLeaves(ts, i) <= good ==> FetchAll(W, s, ts, i).ok
    ensures FetchAll(W, s, ts, i).ok ==> AllLeaves(ts, i) <= FetchAll(W, s, ts, i).st.links.Keys
    decreases Unbuilt(W, s), 2, |ts| - i
  {
    hide Labelled, Coloured, Fetch;
    if i < |ts| {
      FetchKeeps(W, s, ts[i], G, grey, good);
      var r := Fetch(W, s, ts[i]);
      if r.ok {
        FetchAllKeeps(W, r.st, ts, i + 1, G, grey, good);
      }
    }
  }

  lemma {:induction false} FetchKeeps(W: World, s: State, t: Type, G: set<Name>, grey: set<Key>, good: set<Name>)
    requires Buildable(W, good) && Labelled(W, s) && Coloured(W, s, G, grey)
    ensures var r := Fetch(W, s, t); Kept(W, r.st, r.ok, G, grey, good)
    ensures Leaves(t) <= good ==> Fetch(W, s, t).ok
    ensures Fetch(W, s, t).ok ==> Leaves(t) <= Fetch(W, s, t).st.links.Keys
    decreases Unbuilt(W, s), 1, t
  {
    hide NewDesc, Labelled, Coloured;
    match t
    case TMap(kt, vt) =>
      FetchKeeps(W, s, kt, G, grey, good);
      if Fetch(W, s, kt).ok {
        FetchKeeps(W, Fetch(W, s, kt).st, vt, G, grey, good);
      }
    case TSet(e) => FetchKeeps(W, s, e, G, grey, good);
    case TList(e) => FetchKeeps(W, s, e, G, grey, good);
    case TStruct(name) =>
      if name !in s.links {
        NewDescKeeps(W, s, OfPointer(name), G, grey, good);
        var r := NewDesc(W, s, OfPointer(name));
        if r.id.Some? {
          LinkKeeps(W, r.st, name, r.id.value, G, grey);
        }
      }
    case _ =>
  }

  lemma LinkKeeps(W: World, s: State, name: Name, id: nat, G: set<Name>, grey: set<Key>)
    requires Labelled(W, s) && Coloured(W, s, G, grey) && Resolves(W, name)
    requires OfPointer(name) in s.cache && s.cache[OfPointer(name)] == id
    ensures Labelled(W, SetLink(s, name, id)) && Coloured(W, SetLink(s, name, id), G, grey)
  {
  }

  // ----- Whole histories

  lemma CreateKeeps(W: World, s: State, k: Key, G: set<Name>, good: set<Name>)
    requires Buildable(W, good) && Labelled(W, s) && Coloured(W, s, G, {})
    ensures var r := Create(W, s, k);
      && Kept(W, r.st, r.id.Some?, G, {}, good)
      && (r.id.Some? ==> Resolves(W, k.name) && r.id.value < |r.st.descs| && r.st.descs[r.id.value] == k.name)
    ensures k.name in good ==> Create(W, s, k).id.Some?
  {
    hide NewDesc, Coloured, Labelled;
    var r := NewDesc(W, s, OfStruct(k.name));
    NewDescKeeps(W, s, OfStruct(k.name), G, {}, good);
    if OfStruct(k.name) in s.sds {
      PublishedResolves(W, s, OfStruct(k.name));
    } else if r.id.Some? {
      PublishKeeps(W, r.st, k, r.id.value, G);
    }
  }

  /**
    What a call publishes: nothing if it fails or finds the struct published; else the
    descriptor under the struct and under the type that the call was made with, and nothing else.
   */
  lemma CreatePublishes(W: World, s: State, k: Key)
    ensures var r := Create(W, s, k);
      var first := r.id.Some? && OfStruct(k.name) !in s.sds;
      && (forall j :: j in r.st.sds <==> j in s.sds || (first && (j == k || j == OfStruct(k.name))))
      && (forall j :: j in r.st.sds ==>
            if first && (j == k || j == OfStruct(k.name)) then r.id == Some(r.st.sds[j]) else r.st.sds[j] == s.sds[j])
  {
    hide NewDesc;
  }

  lemma PublishedResolves(W: World, s: State, k: Key)
    requires Labelled(W, s) && k in s.sds
    ensures Resolves(W, k.name) && s.sds[k] < |s.descs| && s.descs[s.sds[k]] == k.name
  {
  }

  lemma PublishKeeps(W: World, s: State, k: Key, id: nat, G: set<Name>)
    requires Labelled(W, s) && Coloured(W, s, G, {}) && OfStruct(k.name) in s.cache && s.cache[OfStruct(k.name)] == id
    ensures Labelled(W, Publish(s, k, id)) && Coloured(W, Publish(s, k, id), G, {})
    ensures Resolves(W, k.name) && id < |s.descs| && s.descs[id] == k.name
  {
    hide Mentions;
  }

  /** Failed calls never disturb what can be built. */
  lemma {:induction false} HistoryKeeps(W: World, calls: seq<Key>, good: set<Name>)
    requires Buildable(W, good)
    ensures Labelled(W, Run(W, calls)) && Coloured(W, Run(W, calls), good, {})
  {
    hide Create;
    if calls != [] {
      HistoryKeeps(W, calls[..|calls| - 1], good);
      CreateKeeps(W, Run(W, calls[..|calls| - 1]), calls[|calls| - 1], good, good);
    }
  }

  /** No call has failed. */
  ghost predicate NoFailure(W: World, calls: seq<Key>) {
    forall i :: 0 <= i < |calls| ==> Create(W, Run(W, calls[..i]), calls[i]).id.Some?
  }

  lemma NoEarlierFailure(W: World, calls: seq<Key>)
    requires NoFailure(W, calls) && calls != []
    ensures NoFailure(W, calls[..|calls| - 1])
    ensures Create(W, Run(W, calls[..|calls| - 1]), calls[|calls| - 1]).id.Some?
  {
    hide Create, Run;
    var l := |calls| - 1;
    forall i | 0 <= i < l ensures Create(W, Run(W, calls[..l][..i]), calls[..l][i]).id.Some? {
      assert calls[..l][..i] == calls[..i];
    }
  }

  lemma {:induction false} GoodHistoryKeeps(W: World, calls: seq<Key>, G: set<Name>)
    requires NoFailure(W, calls)
    ensures Labelled(W, Run(W, calls)) && Coloured(W, Run(W, calls), G, {})
  {
    hide Create, NoFailure;
    if calls != [] {
      var l := |calls| - 1;
      NoEarlierFailure(W, calls);
      GoodHistoryKeeps(W, calls[..l], G);
      CreateKeeps(W, Run(W, calls[..l]), calls[l], G, {});
    }
  }

  // ----- What can be reached from a published descriptor

  /** Each struct mentions the next. */
  ghost predicate Path(W: World, p: seq<Name>) {
    p != [] && forall i :: 0 < i < |p| ==> p[i] in Mentions(W, p[i - 1])
  }

  /** Every struct type that can be reached from the descriptor of `name` is linked. */
  ghost predicate Closed(W: World, s: State, name: Name) {
    forall p :: Path(W, p) && p[0] == name && |p| > 1 ==> p[|p| - 1] in s.links
  }

  /** Every struct that can be reached from `name` resolves, itself included. */
  ghost predicate Good(W: World, name: Name) {
    forall p :: Path(W, p) && p[0] == name ==> Resolves(W, p[|p| - 1])
  }

  ghost predicate Reaches(W: World, name: Name, n: Name) {
    exists p :: Path(W, p) && p[0] == name && p[|p| - 1] == n
  }

  ghost function Reachable(W: World, name: Name): set<Name> {
    set n | n in W.Keys && Reaches(W, name, n)
  }

  lemma ReachesItself(W: World, name: Name)
    ensures Reaches(W, name, name)
  {
    assert Path(W, [name]);
  }

  lemma ReachesNext(W: World, name: Name, n: Name, m: Name)
    requires Reaches(W, name, n) && m in Mentions(W, n)
    ensures Reaches(W, name, m)
  {
    var p :| Path(W, p) && p[0] == name && p[|p| - 1] == n;
    assert Path(W, p + [m]);
  }

  lemma ReachableIsBuildable(W: World, name: Name)
    requires Good(W, name)
    ensures Buildable(W, Reachable(W, name)) && name in Reachable(W, name)
  {
    forall n | Reaches(W, name, n) ensures Resolves(W, n) {
    }
    ReachesItself(W, name);
    forall n, m | n in Reachable(W, name) && m in Mentions(W, n) ensures m in Reachable(W, name) {
      ReachesNext(W, name, n, m);
    }
  }

  /** A set of black structs that is closed under mention: everything on a path is linked. */
  lemma {:induction false} PathIsLinked(W: World, s: State, G: set<Name>, p: seq<Name>)
    requires Coloured(W, s, G, {}) && Path(W, p) && p[0] in G && OfStruct(p[0]) in s.cache
    requires forall n :: n in G ==> Mentions(W, n) * s.links.Keys <= G
    ensures |p| > 1 ==> p[|p| - 1] in s.links && p[|p| - 1] in G
  {
    if |p| > 1 {
      var l := |p| - 1;
      var q := p[..l];
      assert Path(W, q) by {
        forall i | 0 < i < |q| ensures q[i] in Mentions(W, q[i - 1]) {
          assert p[i] in Mentions(W, p[i - 1]);
        }
      }
      PathIsLinked(W, s, G, q);
      assert p[l] in Mentions(W, p[l - 1]);
    }
  }

  lemma AllLinked(W: World, s: State, G: set<Name>, name: Name)
    requires Coloured(W, s, G, {}) && name in G && OfStruct(name) in s.cache
    requires forall n :: n in G ==> Mentions(W, n) * s.links.Keys <= G
    ensures Closed(W, s, name)
  {
    forall p | Path(W, p) && p[0] == name && |p| > 1 ensures p[|p| - 1] in s.links {
      PathIsLinked(W, s, G, p);
    }
  }

  /**
    Whatever calls came before, failed ones among them: a descriptor is returned whose
    reachable struct types are all linked if and only if all of these structs resolve.
   */
  lemma ClosedIffResolvable(W: World, calls: seq<Key>, k: Key)
    ensures var r := Create(W, Run(W, calls), k);
      r.id.Some? && Closed(W, r.st, k.name) <==> Good(W, k.name)
  {
    hide Create, Coloured, Path, Run;
    var s := Run(W, calls);
    var r := Create(W, s, k);
    HistoryKeeps(W, calls, {});
    CreateKeeps(W, s, k, {}, {});
    if Good(W, k.name) {
      var G := Reachable(W, k.name);
      ReachableIsBuildable(W, k.name);
      HistoryKeeps(W, calls, G);
      CreateKeeps(W, s, k, G, G);
      CachedWhenPublished(W, r.st, k.name, G);
      AllLinked(W, r.st, G, k.name);
    } else if r.id.Some? && Closed(W, r.st, k.name) {
      ClosedResolves(W, r.st, k.name);
    }
  }

  lemma ClosedResolves(W: World, s: State, name: Name)
    requires Labelled(W, s) && Closed(W, s, name) && Resolves(W, name)
    ensures Good(W, name)
  {
    forall p | Path(W, p) && p[0] == name ensures Resolves(W, p[|p| - 1]) {
      if |p| > 1 {
        assert p[|p| - 1] in s.links;
      }
    }
  }

  lemma CachedWhenPublished(W: World, s: State, name: Name, G: set<Name>)
    requires Coloured(W, s, G, {}) && name in G && OfStruct(name) in s.sds
    ensures OfStruct(name) in s.cache
  {
  }

  /** As long as no call fails, every descriptor that is returned is closed. */
  lemma ClosedWithoutFailures(W: World, calls: seq<Key>, k: Key)
    requires NoFailure(W, calls) && Create(W, Run(W, calls), k).id.Some?
    ensures Closed(W, Create(W, Run(W, calls), k).st, k.name)
  {
    hide Create, Coloured, Path, Run;
    var s := Run(W, calls);
    var r := Create(W, s, k);
    var G := W.Keys + {k.name};
    GoodHistoryKeeps(W, calls, G);
    CreateKeeps(W, s, k, G, {});
    CachedWhenPublished(W, r.st, k.name, G);
    AllLinked(W, r.st, G, k.name);
  }

  /** Links never change once they are set, in any continuation of a history. */
  lemma {:induction false} LinksAreFinal(W: World, calls: seq<Key>, more: seq<Key>, n: Name)
    requires n in Run(W, calls).links
    ensures n in Run(W, calls + more).links && Run(W, calls + more).links[n] == Run(W, calls).links[n]
  {
    hide Create;
    if more == [] {
      assert calls + more == calls;
    } else {
      var l := |more| - 1;
      LinksAreFinal(W, calls, more[..l], n);
      assert (calls + more)[..|calls| + l] == calls + more[..l];
      assert (calls + more)[|calls| + l] == more[l];
    }
  }

  // ----- A failed call can leave a trap behind

  /** A { *B; *C }, B { *A }, D { *B }, where C does not resolve. */
  function TrapWorld(): World {
    map["A" := Some([TStruct("B"), TStruct("C")]), "B" := Some([TStruct("A")]),
        "C" := None, "D" := Some([TStruct("B")])]
  }

  /** Below A and B, the pointer to A is given up, but B has been linked already. */
  lemma InnerA(s: State)
    requires s.cache == map[OfStruct("A") := 0, OfPointer("B") := 1] && s.links == map[]
    ensures var r := NewDesc(TrapWorld(), s, OfPointer("A"));
      r.id.None? && r.st.links == map["B" := 1] && r.st.cache == s.cache && r.st.sds == s.sds
  {
    hide NewDesc;
    var W := TrapWorld();
    var ts := W["A"].value;
    var s1 := Allocate(s, OfPointer("A"));
    NewDescUnfolds(W, s, OfPointer("A"));
    GreyIsLinked(W, s1, "B");
    var s2 := SetLink(s1, "B", 1);
    NothingToBuild(W, s2, "C");
    assert FetchAll(W, s1, ts, 0) == FetchAll(W, s2, ts, 1);
    assert ts[1] == TStruct("C") && !Fetch(W, s2, TStruct("C")).ok;
    assert Evict(s2, OfPointer("A")).cache == s.cache;
  }

  lemma GreyIsLinked(W: World, s: State, name: Name)
    requires OfPointer(name) in s.cache && name !in s.links
    ensures Fetch(W, s, TStruct(name)) == Fetched(SetLink(s, name, s.cache[OfPointer(name)]), true)
  {
  }

  lemma NothingToBuild(W: World, s: State, name: Name)
    requires !Resolves(W, name) && OfPointer(name) !in s.cache && name !in s.links
    ensures Fetch(W, s, TStruct(name)) == Fetched(s, false)
  {
  }

  lemma InnerB(s: State)
    requires s.cache == map[OfStruct("A") := 0] && s.links == map[] && |s.descs| == 1
    ensures var r := NewDesc(TrapWorld(), s, OfPointer("B"));
      r.id.None? && r.st.links == map["B" := 1] && r.st.cache == s.cache && r.st.sds == s.sds
  {
    hide NewDesc;
    NewDescUnfolds(TrapWorld(), s, OfPointer("B"));
    var s1 := Allocate(s, OfPointer("B"));
    InnerA(s1);
    assert !Fetch(TrapWorld(), s1, TStruct("A")).ok;
  }

  lemma NewDescUnfolds(W: World, s: State, k: Key)
    requires k !in s.cache && Resolves(W, k.name)
    ensures var r := FetchAll(W, Allocate(s, k), W[k.name].value, 0);
      NewDesc(W, s, k) == if r.ok then Built(r.st, Some(|s.descs|)) else Built(Evict(r.st, k), None)
  {
  }

  lemma AfterFailedA()
    ensures var r := Create(TrapWorld(), Initial(), OfStruct("A"));
      r.id.None? && r.st.links == map["B" := 1] && r.st.cache == map[] && r.st.sds == map[]
  {
    hide NewDesc;
    NewDescUnfolds(TrapWorld(), Initial(), OfStruct("A"));
    var s1 := Allocate(Initial(), OfStruct("A"));
    InnerB(s1);
    assert !Fetch(TrapWorld(), s1, TStruct("B")).ok;
  }

  /**
    Building A fails, as C does not resolve. Building D succeeds afterwards, although D leads
    to B and from there to A, which is not linked.
   */
  lemma FailureLeavesTrap()
    ensures var s := Run(TrapWorld(), [OfStruct("A")]);
      var r := Create(TrapWorld(), s, OfStruct("D"));
      && Create(TrapWorld(), Initial(), OfStruct("A")).id.None?
      && r.id.Some?
      && Path(TrapWorld(), ["D", "B", "A"]) && "A" !in r.st.links
      && !Closed(TrapWorld(), r.st, "D")
  {
    hide NewDesc, Path;
    AfterFailedA();
    var W := TrapWorld();
    var s := Run(W, [OfStruct("A")]);
    assert [OfStruct("A")][..0] == [];
    assert s == Create(W, Initial(), OfStruct("A")).st;
    NewDescUnfolds(W, s, OfStruct("D"));
    var s1 := Allocate(s, OfStruct("D"));
    assert Fetch(W, s1, TStruct("B")) == Fetched(s1, true);
    TrapPath();
    assert ["D", "B", "A"][2] == "A";
  }

  lemma TrapPath()
    ensures Path(TrapWorld(), ["D", "B", "A"])
  {
    var W := TrapWorld();
    assert "B" in Leaves(W["D"].value[0]) && "A" in Leaves(W["B"].value[0]);
  }

  // ----- The code: package variables that change step by step

  class Registry {
    var descs: seq<Name>
    var cache: map<Key, nat>
    var links: map<Name, nat>
    var sds: map<Key, nat>

    function Now(): State
      reads this
    {
      State(descs, cache, links, sds)
    }

    constructor ()
      ensures Now() == Initial()
    {
      descs, cache, links, sds := [], map[], map[], map[];
    }

    method CreateStructDesc(W: World, k: Key) returns (r: Option<nat>)
      modifies this
      ensures Built(Now(), r) == Create(W, old(Now()), k)
    {
      hide NewDesc;
      var key := OfStruct(k.name);
      if key in sds {
        return Some(sds[key]);
      }
      r := NewStructDescAndPrefetch(W, key);
      if r.Some? {
        sds := sds[key := r.value];
        sds := sds[k := r.value];
      }
    }

    method NewStructDescAndPrefetch(W: World, k: Key) returns (r: Option<nat>)
      modifies this
      ensures Built(Now(), r) == NewDesc(W, old(Now()), k)
      decreases Unbuilt(W, Now()), 0
    {
      hide FetchAll;
      if k in cache {
        return Some(cache[k]);
      }
      if !Resolves(W, k.name) {
        return None;
      }
      Allocated(W, Now(), k);
      var id := |descs|;
      descs := descs + [k.name];
      cache := cache[k := id];
      var ok := PrefetchSubStructDesc(W, W[k.name].value);
      if !ok {
        cache := cache - {k};
        return None;
      }
      return Some(id);
    }

    method PrefetchSubStructDesc(W: World, ts: seq<Type>) returns (ok: bool)
      modifies this
      ensures Fetched(Now(), ok) == FetchAll(W, old(Now()), ts, 0)
      decreases Unbuilt(W, Now()), 2
    {
      hide Fetch;
      var i := 0;
      while i < |ts|
        invariant 0 <= i <= |ts|
        invariant Extends(old(Now()), Now())
        invariant FetchAll(W, Now(), ts, i) == FetchAll(W, old(Now()), ts, 0)
      {
        ok := FetchStructDesc(W, ts[i]);
        if !ok {
          return;
        }
        i := i + 1;
      }
      return true;
    }

    method FetchStructDesc(W: World, t: Type) returns (ok: bool)
      modifies this
      ensures Fetched(Now(), ok) == Fetch(W, old(Now()), t)
      decreases Unbuilt(W, Now()), 1, t
    {
      hide NewDesc;
      match t
      case TMap(kt, vt) =>
        ok := FetchStructDesc(W, kt);
        if ok {
          ok := FetchStructDesc(W, vt);
        }
      case TSet(e) => ok := FetchStructDesc(W, e);
      case TList(e) => ok := FetchStructDesc(W, e);
      case TStruct(name) =>
        if name in links {
          return true;
        }
        var id := NewStructDescAndPrefetch(W, OfPointer(name));
        if id.None? {
          return false;
        }
        links := links[name := id.value];
        return true;
      case _ => return true;
    }
  }
}
