/**
  The calls on the map of descriptors come to an end (internal/reflect/descmap.go): a Set that
  is left to itself stores what it was given, and a Get returns what its slot held.
 */
module DescMapProgress {
  import opened Common
  import opened DescMap
  import opened DescMapRuns

  /** `n` steps of the writer. */
  function Writes(s: State, n: nat): State
    decreases n
  {
    if n == 0 then s else Writes(Next(s, Write), n - 1)
  }

  /** The steps that the writer has still to take, at most. */
  function StepsLeft(s: State): nat {
    var len := if s.writer.Unlocked? || s.writer.w >= |s.heap| then 0 else |s.heap[s.writer.w]|;
    match s.writer
    case Unlocked => 0
    case Copying(_, _, _, j) => (if j < len then len - j else 0) + len + 4
    case Editing(_, _, _, i) => (if i < len then len - i else 0) + 2
    case Storing(_, _, _) => 1
  }

  lemma OneWrite(s: State)
    requires Inv(s) && !s.writer.Unlocked?
    ensures var t := Next(s, Write);
      && StepsLeft(t) < StepsLeft(s)
      && (!s.writer.Storing? ==> !t.writer.Unlocked? && t.writer.key == s.writer.key && t.writer.sd == s.writer.sd)
      && (s.writer.Storing? ==> t.writer.Unlocked?)
  {
    hide Put, Find, SlotOk;
    if s.writer.Storing? {
      assert Bucket(s.writer.key) < |s.slots|;
    }
  }

  lemma {:induction false} WriterFinishes(s: State) returns (n: nat)
    requires Inv(s) && !s.writer.Unlocked?
    ensures n <= StepsLeft(s) && Writes(s, n).writer.Unlocked?
    ensures forall k: nat :: Lookup(Writes(s, n), k) == if k == s.writer.key then Some(s.writer.sd) else Lookup(s, k)
    decreases StepsLeft(s)
  {
    hide Next, Inv, Lookup, StepsLeft;
    var t := Next(s, Write);
    OneWrite(s);
    NextKeepsInv(s, Write);
    forall k: nat
      ensures Lookup(t, k) == if s.writer.Storing? && k == s.writer.key then Some(s.writer.sd) else Lookup(s, k)
    {
      StoreIsTheUpdate(s, Write, k);
    }
    if s.writer.Storing? {
      n := 1;
      assert Writes(s, 1) == Writes(t, 0) == t;
    } else {
      var m := WriterFinishes(t);
      n := m + 1;
    }
  }

  /** A call of Set, left to itself, ends with the descriptor stored for its key and no other change. */
  lemma SetTakesEffect(s: State, key: nat, sd: DescRef) returns (n: nat)
    requires Inv(s) && s.writer.Unlocked?
    ensures var t := Writes(Next(s, Set(key, sd)), n);
      && t.writer.Unlocked?
      && forall k: nat :: Lookup(t, k) == if k == key then Some(sd) else Lookup(s, k)
  {
    hide Inv, Lookup;
    var t := Next(s, Set(key, sd));
    NextKeepsInv(s, Set(key, sd));
    forall k: nat ensures Lookup(t, k) == Lookup(s, k) {
      StoreIsTheUpdate(s, Set(key, sd), k);
    }
    if t.writer.Unlocked? {
      n := 0;
    } else {
      n := WriterFinishes(t);
    }
  }

  /** `n` looks of reader `r`. */
  function Looks(s: State, r: nat, n: nat): State
    decreases n
  {
    if n == 0 then s else Looks(Next(s, Look(r)), r, n - 1)
  }

  lemma {:induction false} ReaderFinishes(s: State, r: nat) returns (n: nat)
    requires r < |s.readers| && s.readers[r].Scanning? && s.readers[r].i <= |At(s, s.readers[r].ref)|
    ensures var rd := s.readers[r];
      var t := Looks(s, r, n);
      && r < |t.readers|
      && t.readers[r] == Done(rd.key, Find(At(s, rd.ref), rd.key, rd.i))
    decreases |At(s, s.readers[r].ref)| - s.readers[r].i
  {
    var rd := s.readers[r];
    var items := At(s, rd.ref);
    var t := Next(s, Look(r));
    if rd.i < |items| && items[rd.i].abiType != rd.key {
      var m := ReaderFinishes(t, r);
      n := m + 1;
    } else {
      n := 1;
      assert Looks(s, r, 1) == Looks(t, r, 0) == t;
    }
  }

  /** A call of Get, left to itself, returns what the map holds for its key. */
  lemma GetReturns(s: State, r: nat, key: nat) returns (n: nat)
    requires Inv(s) && r < |s.readers| && (s.readers[r].Idle? || s.readers[r].Done?)
    ensures var t := Looks(Next(Next(s, Call(r, key)), Load(r)), r, n);
      r < |t.readers| && t.readers[r] == Done(key, Lookup(s, key))
  {
    hide Find, SlotOk;
    var a := Next(s, Call(r, key));
    var b := Next(a, Load(r));
    assert a.readers[r] == Called(key) && a.slots == s.slots && a.heap == s.heap && |s.slots| == BUCKETS;
    assert b.readers[r] == Scanning(key, s.slots[Bucket(key)], 0) && b.heap == s.heap;
    n := ReaderFinishes(b, r);
  }
}
