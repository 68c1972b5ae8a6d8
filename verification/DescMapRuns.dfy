/**
  The map of descriptors under concurrency: one writer (Set runs with the lock held) and any
  number of readers take their atomic steps in any order. Arrays of items live in `heap`; a
  slot holds the index of its array.
 */
module DescMapRuns {
  import opened Common
  import opened DescMap

  /** A reader inside Get; `ref` is what it has loaded from the slot. */
  datatype Reader =
    | Idle
    | Called(key: nat)
    | Scanning(key: nat, ref: Option<nat>, i: nat)
    | Done(key: nat, result: Option<DescRef>)

  /** The writer inside Set; `w` is the array that it has not published yet. */
  datatype Writer =
    | Unlocked
    | Copying(key: nat, sd: DescRef, w: nat, j: nat)
    | Editing(key: nat, sd: DescRef, w: nat, i: nat)
    | Storing(key: nat, sd: DescRef, w: nat)

  datatype State = State(heap: seq<seq<Item>>, slots: seq<Option<nat>>, readers: seq<Reader>, writer: Writer)

  function Init(n: nat): State {
    State([], seq(BUCKETS, _ => None), seq(n, _ => Idle), Unlocked)
  }

  function At(s: State, ref: Option<nat>): seq<Item> {
    if ref.Some? && ref.value < |s.heap| then s.heap[ref.value] else []
  }

  /** The items that a slot holds now. */
  function Slot(s: State, bk: nat): seq<Item> {
    if bk < |s.slots| then At(s, s.slots[bk]) else []
  }

  /** The map that the slots stand for. */
  function Lookup(s: State, key: nat): Option<DescRef> {
    Find(Slot(s, Bucket(key)), key, 0)
  }

  // ----- Steps

  datatype Step =
    | Call(r: nat, key: nat)
    | Load(r: nat)
    | Look(r: nat)
    | Set(key: nat, sd: DescRef)
    | Write

  /** One look at an item, or the return from Get. */
  function ScanStep(items: seq<Item>, rd: Reader): Reader
    requires rd.Scanning?
  {
    if rd.i >= |items| then Done(rd.key, None)
    else if items[rd.i].abiType == rd.key then Done(rd.key, Some(items[rd.i].sd))
    else rd.(i := rd.i + 1)
  }

  function ReaderStep(s: State, r: nat, rd: Reader): State
    requires r < |s.readers|
  {
    s.(readers := s.readers[r := rd])
  }

  /** Set: nothing if the descriptor is there already, else a new array of the same length. */
  function Lock(s: State, key: nat, sd: DescRef): State {
    if Lookup(s, key) == Some(sd) then s
    else
      var items := seq(|Slot(s, Bucket(key))|, _ => Item(0, 0));
      s.(heap := s.heap + [items], writer := Copying(key, sd, |s.heap|, 0))
  }

  /** The next write of the writer: to its own array, or of the slot. */
  function WriterStep(s: State): State {
    match s.writer
    case Unlocked => s
    case Copying(key, sd, w, j) =>
      var items := Slot(s, Bucket(key));
      if w >= |s.heap| then s
      else if j < |items| && j < |s.heap[w]| then
        s.(heap := s.heap[w := s.heap[w][j := items[j]]], writer := Copying(key, sd, w, j + 1))
      else s.(writer := Editing(key, sd, w, 0))
    case Editing(key, sd, w, i) =>
      if w >= |s.heap| then s
      else if i >= |s.heap[w]| then
        s.(heap := s.heap[w := s.heap[w] + [Item(key, sd)]], writer := Storing(key, sd, w))
      else if s.heap[w][i].abiType == key then
        s.(heap := s.heap[w := s.heap[w][i := Item(key, sd)]], writer := Storing(key, sd, w))
      else s.(writer := Editing(key, sd, w, i + 1))
    case Storing(key, sd, w) =>
      if Bucket(key) >= |s.slots| then s
      else s.(slots := s.slots[Bucket(key) := Some(w)], writer := Unlocked)
  }

  /** A step that is not possible changes nothing. */
  function Next(s: State, e: Step): State {
    match e
    case Call(r, key) =>
      if r < |s.readers| && (s.readers[r].Idle? || s.readers[r].Done?) then ReaderStep(s, r, Called(key)) else s
    case Load(r) =>
      if r < |s.readers| && s.readers[r].Called? && Bucket(s.readers[r].key) < |s.slots| then
        ReaderStep(s, r, Scanning(s.readers[r].key, s.slots[Bucket(s.readers[r].key)], 0))
      else s
    case Look(r) =>
      if r < |s.readers| && s.readers[r].Scanning? then
        ReaderStep(s, r, ScanStep(At(s, s.readers[r].ref), s.readers[r]))
      else s
    case Set(key, sd) => if s.writer.Unlocked? then Lock(s, key, sd) else s
    case Write => WriterStep(s)
  }

  function Run(n: nat, steps: seq<Step>): State {
    if steps == [] then Init(n) else Next(Run(n, steps[..|steps| - 1]), steps[|steps| - 1])
  }

  // ----- What every step keeps

  /** The array that only the writer knows. */
  function Private(s: State): Option<nat> {
    if s.writer.Unlocked? then None else Some(s.writer.w)
  }

  ghost predicate SlotsOk(s: State) {
    && |s.slots| == BUCKETS
    && forall bk :: 0 <= bk < BUCKETS ==> SlotOk(Slot(s, bk), bk)
  }

  /** A published or loaded array exists and is not the writer's own. */
  predicate Shared(s: State, ref: Option<nat>) {
    ref.Some? ==> ref.value < |s.heap| && ref != Private(s)
  }

  ghost predicate SharedOk(s: State) {
    && (forall bk :: 0 <= bk < |s.slots| ==> Shared(s, s.slots[bk]))
    && (forall r :: 0 <= r < |s.readers| && s.readers[r].Scanning? ==> Shared(s, s.readers[r].ref))
  }

  ghost predicate ReaderOk(s: State, rd: Reader) {
    rd.Scanning? ==>
      && rd.i <= |At(s, rd.ref)|
      && Find(At(s, rd.ref), rd.key, rd.i) == Find(At(s, rd.ref), rd.key, 0)
  }

  ghost predicate WriterOk(s: State) {
    match s.writer
    case Unlocked => true
    case Copying(key, sd, w, j) =>
      var items := Slot(s, Bucket(key));
      w < |s.heap| && |s.heap[w]| == |items| && j <= |items| && s.heap[w][..j] == items[..j]
    case Editing(key, sd, w, i) =>
      var items := Slot(s, Bucket(key));
      && w < |s.heap| && s.heap[w] == items && i <= |items|
      && Put(items, key, sd, i) == Put(items, key, sd, 0)
    case Storing(key, sd, w) =>
      w < |s.heap| && s.heap[w] == Put(Slot(s, Bucket(key)), key, sd, 0)
  }

  ghost predicate Inv(s: State) {
    && SlotsOk(s) && SharedOk(s) && WriterOk(s)
    && forall r :: 0 <= r < |s.readers| ==> ReaderOk(s, s.readers[r])
  }

  /** No step writes to an array that is published or that a reader holds. */
  lemma SharedIsImmutable(s: State, e: Step, ref: Option<nat>)
    requires Inv(s) && Shared(s, ref)
    ensures At(Next(s, e), ref) == At(s, ref) && |Next(s, e).heap| >= |s.heap|
  {
  }

  lemma SlotAfter(s: State, e: Step, bk: nat)
    requires Inv(s) && bk < BUCKETS
    ensures var t := Next(s, e);
      && |t.slots| == BUCKETS
      && Slot(t, bk) == if e.Write? && s.writer.Storing? && bk == Bucket(s.writer.key)
           then Put(Slot(s, bk), s.writer.key, s.writer.sd, 0) else Slot(s, bk)
  {
    hide Put, Find, SlotOk;
    SharedIsImmutable(s, e, s.slots[bk]);
  }

  lemma NextSlotsOk(s: State, e: Step)
    requires Inv(s)
    ensures SlotsOk(Next(s, e))
  {
    hide Next, Slot, SlotOk, Put;
    forall bk | 0 <= bk < BUCKETS ensures SlotOk(Slot(Next(s, e), bk), bk) {
      SlotAfter(s, e, bk);
      if e.Write? && s.writer.Storing? && bk == Bucket(s.writer.key) {
        PutKeepsSlot(Slot(s, bk), s.writer.key, s.writer.sd, 0);
      }
    }
    SlotAfter(s, e, 0);
  }

  lemma NextSharedOk(s: State, e: Step)
    requires Inv(s)
    ensures SharedOk(Next(s, e))
  {
    hide Put, Find, SlotOk;
  }

  lemma NextWriterOk(s: State, e: Step)
    requires Inv(s)
    ensures WriterOk(Next(s, e))
  {
    hide SlotOk, Find;
    if !s.writer.Unlocked? {
      SlotAfter(s, e, Bucket(s.writer.key));
    } else if e.Set? {
      SlotAfter(s, e, Bucket(e.key));
    }
  }

  lemma NextReaderOk(s: State, e: Step, r: nat)
    requires Inv(s) && r < |s.readers|
    ensures |Next(s, e).readers| == |s.readers| && ReaderOk(Next(s, e), Next(s, e).readers[r])
  {
    hide Put, SlotOk;
    if s.readers[r].Scanning? {
      SharedIsImmutable(s, e, s.readers[r].ref);
    }
  }

  lemma NextKeepsInv(s: State, e: Step)
    requires Inv(s)
    ensures Inv(Next(s, e))
  {
    hide Next, SlotsOk, SharedOk, WriterOk, ReaderOk;
    NextSlotsOk(s, e);
    NextSharedOk(s, e);
    NextWriterOk(s, e);
    forall r | 0 <= r < |Next(s, e).readers| ensures ReaderOk(Next(s, e), Next(s, e).readers[r]) {
      SameReaders(s, e);
      NextReaderOk(s, e, r);
    }
  }

  lemma SameReaders(s: State, e: Step)
    ensures |Next(s, e).readers| == |s.readers|
  {
  }

  /** In every run, slots hold no type twice and no type of another bucket. */
  lemma {:induction false} RunKeepsInv(n: nat, steps: seq<Step>)
    ensures Inv(Run(n, steps))
  {
    if steps == [] {
      assert forall bk :: 0 <= bk < BUCKETS ==> Slot(Init(n), bk) == [];
    } else {
      RunKeepsInv(n, steps[..|steps| - 1]);
      NextKeepsInv(Run(n, steps[..|steps| - 1]), steps[|steps| - 1]);
    }
  }

  // ----- What the map stands for

  /** Set takes effect when the slot is stored, all at once; nothing else changes the map. */
  lemma StoreIsTheUpdate(s: State, e: Step, key: nat)
    requires Inv(s)
    ensures Lookup(Next(s, e), key)
      == if e.Write? && s.writer.Storing? && key == s.writer.key then Some(s.writer.sd) else Lookup(s, key)
  {
    hide Next, Put, Find, Slot;
    SlotAfter(s, e, Bucket(key));
    if e.Write? && s.writer.Storing? && Bucket(key) == Bucket(s.writer.key) {
      FindAfterPut(Slot(s, Bucket(key)), s.writer.key, s.writer.sd, 0, key);
    }
  }

  /** Reader `r` is inside the Get for `key` that will return `result`, or has returned it. */
  predicate Bound(s: State, r: nat, key: nat, result: Option<DescRef>) {
    && r < |s.readers|
    && (s.readers[r].Scanning? || s.readers[r].Done?)
    && s.readers[r].key == key
    && (if s.readers[r].Done? then s.readers[r].result else Find(At(s, s.readers[r].ref), key, 0)) == result
  }

  lemma BoundStep(s: State, e: Step, r: nat, key: nat, result: Option<DescRef>)
    requires Inv(s) && Bound(Next(s, e), r, key, result)
    ensures Bound(s, r, key, result) || (e == Load(r) && s.readers[r] == Called(key) && Lookup(s, key) == result)
  {
    hide Put, SlotOk;
    SameReaders(s, e);
    if s.readers[r].Scanning? {
      SharedIsImmutable(s, e, s.readers[r].ref);
    }
  }

  /**
    Every Get returns what the map held at one moment of the call, that of its slot load:
    there the reader had asked for the key, and from there on it is bound to the result.
   */
  lemma {:induction false} GetReadsItsLoad(n: nat, steps: seq<Step>, r: nat, key: nat, result: Option<DescRef>)
    requires Bound(Run(n, steps), r, key, result)
    ensures exists k :: LoadedAt(n, steps, k, r, key, result)
  {
    hide Next, Bound, Lookup;
    if steps == [] {
      NotBoundInitially(n, r, key, result);
    } else {
      var l := |steps| - 1;
      var s := Run(n, steps[..l]);
      RunKeepsInv(n, steps[..l]);
      BoundStep(s, steps[l], r, key, result);
      if Bound(s, r, key, result) {
        GetReadsItsLoad(n, steps[..l], r, key, result);
        var k :| LoadedAt(n, steps[..l], k, r, key, result);
        LoadedBefore(n, steps, k, r, key, result);
      } else {
        assert steps[..|steps|] == steps;
        forall j | l < j <= |steps| ensures Bound(Run(n, steps[..j]), r, key, result) {
          assert j == |steps|;
        }
        SameReaders(s, steps[l]);
        BoundReader(Run(n, steps), r, key, result);
        assert LoadedAt(n, steps, l, r, key, result);
      }
    }
  }

  ghost predicate LoadedAt(n: nat, steps: seq<Step>, k: nat, r: nat, key: nat, result: Option<DescRef>) {
    && k < |steps| && steps[k] == Load(r)
    && r < |Run(n, steps[..k]).readers| && Run(n, steps[..k]).readers[r] == Called(key)
    && Lookup(Run(n, steps[..k]), key) == result
    && forall j :: k < j <= |steps| ==> Bound(Run(n, steps[..j]), r, key, result)
  }

  lemma BoundReader(s: State, r: nat, key: nat, result: Option<DescRef>)
    requires Bound(s, r, key, result)
    ensures r < |s.readers|
  {
  }

  lemma NotBoundInitially(n: nat, r: nat, key: nat, result: Option<DescRef>)
    ensures !Bound(Init(n), r, key, result)
  {
  }

  lemma LoadedBefore(n: nat, steps: seq<Step>, k: nat, r: nat, key: nat, result: Option<DescRef>)
    requires steps != [] && LoadedAt(n, steps[..|steps| - 1], k, r, key, result)
    requires Bound(Run(n, steps), r, key, result)
    ensures LoadedAt(n, steps, k, r, key, result)
  {
    hide Next, Run, Bound, Lookup;
    var l := |steps| - 1;
    assert steps[..l][..k] == steps[..k];
    forall j | k < j <= |steps| ensures Bound(Run(n, steps[..j]), r, key, result) {
      if j <= l {
        assert steps[..l][..j] == steps[..j];
      } else {
        assert steps[..j] == steps;
      }
    }
  }
}
