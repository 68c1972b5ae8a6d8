/**
  The exported functions one after the other (frugal.go): EncodeObject into a buffer and
  DecodeObject from it, with the methods that model the code.
 */
module EndToEnd {
  import opened Schema
  import opened Wire
  import opened ReadingBack
  import opened Decoding
  import opened Codec
  import opened FastPaths
  import opened GoSlice
  import opened Encoder
  import opened Decoder

  /** DecodeObject: the whole buffer, and the limit on depth. */
  method DecodeObject(S: Schema, sd: StructDesc, buf: Slice, base: Object) returns (r: Outcome<()>)
    requires buf.Valid() && base.fields.Length == |sd.fields|
    modifies base, base.fields
    ensures Loaded(r, base.Content()) == DecodeStruct(S, sd, buf.Bytes(), old(base.Content()), MAX_DEPTH)
  {
    hide DecodeStruct, Bounded, Built;
    var d := new TDecoder();
    r := d.Decode(S, sd, buf.arr[..buf.len], base, MAX_DEPTH);
  }

  lemma LoadedIs(r: Outcome<()>, x: Value, v: Value, n: nat)
    ensures Loaded(r, x) == Ok(v, n) <==> r == Ok((), n) && x == v
  {
    if r.Ok? {
      assert r.val == ();
    }
  }

  /**
    A struct whose maps are read in place, and which fits into the buffer, comes out of it
    again, in an object that held the defaults, if and only if it is canonical and its cost
    is within the limit; whatever the buffer held behind it.
   */
  method EncodeAndDecode(S: Schema, sd: StructDesc, buf: Slice, v: Value, settled: bool, base: Object)
    returns (encoded: bool, n: nat, r: Outcome<()>)
    requires buf.Valid() && TypedStruct(S, sd, v) && StructInPlace(S, sd, v, settled)
    requires base.fields.Length == |sd.fields| && base.Content() == Fresh(sd)
    requires base.fields as object != buf.arr
    modifies buf.arr, base, base.fields
    ensures encoded <==> |EncodeStruct(S, sd, v)| <= buf.len
    ensures encoded ==>
      (r == Ok((), |EncodeStruct(S, sd, v)|) && base.Content() == v
       <==> CanonicalFields(S, sd, v, 0) && StructCost(S, sd, v) <= MAX_DEPTH)
  {
    hide DecodeStruct, EncodeStruct, StructCost, CanonicalFields, StructInPlace, Typed, ValidUnknown;
    r := Panic;
    n, encoded := EncodeObject(S, sd, buf, v, settled);
    if encoded {
      ghost var e := EncodeStruct(S, sd, v);
      ghost var rest := buf.arr[n..buf.len];
      assert buf.Bytes() == e + rest;
      RoundTrip(S, sd, v, rest, MAX_DEPTH);
      assert base.Content() == Fresh(sd);
      r := DecodeObject(S, sd, buf, base);
      assert Loaded(r, base.Content()) == DecodeStruct(S, sd, e + rest, Fresh(sd), MAX_DEPTH);
      LoadedIs(r, base.Content(), v, |e|);
    }
  }
}
