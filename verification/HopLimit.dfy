/**
  Where a hop fails for depth: a message of structs inside one another that is just within
  the limit. The innermost struct leaves its field out; the encoder, as the field is not
  optional, writes it as an empty struct, which is one struct too many.
 */
module HopLimit {
  import opened Common
  import opened Schema
  import opened Reference
  import opened Wire
  import opened ReadingBack
  import opened TypedReading
  import opened Decoding
  import opened Codec
  import opened Passthrough

  /** struct Link { 1: Link next }, with unknown fields kept */
  function LinkDesc(): (sd: StructDesc)
    ensures sd.fields == [Field(1, TStruct("Link"), Default, false)]
    ensures sd.init == [Nil] && sd.required == [] && !sd.hasInit && sd.hasUnknown
  {
    var f := Field(1, TStruct("Link"), Default, false);
    assert [f][..0] == [] && [f][0] == f;
    assert SumFixed([f]) == 0 && VarFields([f]) == [0] && RequiredIDs([f]) == [];
    Desc([f], 1, [-1, 0], 0, [0], [], false, [Nil], true)
  }

  function LinkSchema(): Schema {
    map["Link" := LinkDesc()]
  }

  /** The message of `k` structs; the innermost one has no field. */
  function Message(k: nat): seq<Byte>
    requires k > 0
  {
    if k == 1 then [STOP] else FieldHeader(LinkDesc().fields[0]) + Message(k - 1) + [STOP]
  }

  lemma OneLink(c: seq<Byte>, v: Value, cost: nat, s: seq<Byte>)
    requires ReadStruct(LinkSchema(), LinkDesc(), c + ([STOP] + s), Fresh(LinkDesc())) == Some(Read(v, |c|, cost))
    ensures var b := FieldHeader(LinkDesc().fields[0]) + c + [STOP];
      ReadStruct(LinkSchema(), LinkDesc(), b + s, Fresh(LinkDesc())) == Some(Read(Struct([v], []), |b|, 2 + cost))
  {
    hide ReadFields, ReadField, ReadFieldValue, FieldHeader, LinkDesc, Built;
    var S, sd := LinkSchema(), LinkDesc();
    var h := FieldHeader(sd.fields[0]);
    var t := [STOP] + s;
    var p := Partial(sd.init, [], {});
    assert h + c + [STOP] + s == h + (c + t) && h + (c + t) == h + c + t;
    HeaderReads(S, sd, 0, c + t, p);
    NestedValue(c + t, v, |c|, cost);
    WireTypeIsNotStop(sd.fields[0].typ);
    HeaderStart(sd.fields[0], c);
    FieldsStep(S, sd, h + c, t, p);
    StopReads(S, sd, s, p.(fields := p.fields[0 := v], seen := p.seen + {1}));
    assert p.fields[0 := v] == [v];
  }

  lemma NestedValue(b: seq<Byte>, v: Value, n: nat, cost: nat)
    requires ReadStruct(LinkSchema(), LinkDesc(), b, Fresh(LinkDesc())) == Some(Read(v, n, cost))
    ensures ReadFieldValue(LinkSchema(), LinkDesc().fields[0], b) == Some(Read(v, n, 1 + cost))
  {
    hide ReadStruct, LinkDesc, Built;
    assert LinkSchema()["Link"] == LinkDesc();
    assert ReadNested(LinkSchema(), "Link", b) == Some(Read(v, n, 1 + cost));
  }

  lemma HeaderStart(f: Field, c: seq<Byte>)
    ensures |FieldHeader(f) + c| == 3 + |c| && (FieldHeader(f) + c)[0] == WireType(f.typ)
  {
  }

  /** The message reads as the chain, with the cost of its structs. */
  lemma {:induction false} MessageReads(k: nat, s: seq<Byte>)
    requires k > 0
    ensures ReadStruct(LinkSchema(), LinkDesc(), Message(k) + s, Fresh(LinkDesc()))
      == Some(Read(Chain(k), |Message(k)|, 2 * k - 1))
  {
    hide ReadStruct, LinkDesc, Built;
    if k == 1 {
      EmptyReads(s);
    } else {
      MessageReads(k - 1, [STOP] + s);
      OneLink(Message(k - 1), Chain(k - 1), 2 * k - 3, s);
    }
  }

  lemma EmptyReads(s: seq<Byte>)
    ensures ReadStruct(LinkSchema(), LinkDesc(), [STOP] + s, Fresh(LinkDesc())) == Some(Read(Chain(1), 1, 1))
  {
    StopReads(LinkSchema(), LinkDesc(), s, Partial(LinkDesc().init, [], {}));
  }

  /** Encoded again, the chain takes one level of struct more. */
  lemma {:induction false} EncodedCost(k: nat)
    requires k > 0
    ensures RestorableFields(LinkSchema(), LinkDesc(), Chain(k), 0)
    ensures StructCost(LinkSchema(), LinkDesc(), Chain(k)) == 2 * k + 1
  {
    hide LinkDesc, Built;
    var S, sd, v := LinkSchema(), LinkDesc(), Chain(k);
    if k > 1 {
      EncodedCost(k - 1);
    }
    assert Cost(S, TStruct("Link"), v.fields[0]) == 2 * k;
    assert Restorable(S, TStruct("Link"), v.fields[0]);
    assert !Skipped(sd, 0, v.fields[0]);
    assert FieldCost(S, sd, 0, v.fields[0]) == 2 * k && FieldsCost(S, sd, v, 1) == 0;
    assert RestorableField(S, sd, 0, v.fields[0]) && RestorableFields(S, sd, v, 1);
  }

  lemma LinkIsTyped()
    ensures SchemaTyped(LinkSchema()) && InitTyped(LinkSchema(), LinkDesc()) && Older(LinkDesc(), LinkDesc())
  {
    hide Built;
    var sd := LinkDesc();
    assert sd.fields[0] == sd.fields[0] && sd.init[0] == Nil;
  }

  /**
    Under the limit of 1023 the message of `k` structs decodes if and only if k is at most 512,
    but what is encoded from it decodes again if and only if k is at most 511.
   */
  lemma HopLosesALevel(k: nat, s: seq<Byte>)
    requires k > 0
    ensures var S, sd := LinkSchema(), LinkDesc();
      var w := DecodeStruct(S, sd, Message(k), Fresh(sd), MAX_DEPTH);
      && (w.Ok? <==> k <= 512)
      && (w.Ok? ==> Shaped(sd, w.val))
      && (w.Ok? ==>
            (DecodeStruct(S, sd, EncodeStruct(S, sd, w.val) + s, Fresh(sd), MAX_DEPTH).Ok? <==> k <= 511))
  {
    hide DecodeStruct, ReadStruct, EncodeStruct, StructCost, RestorableFields, LinkDesc, Message, ReplayCost, AfterHop;
    hide SchemaTyped, InitTyped, Older, Built, CanonicalFields, TypedStruct;
    var S, sd := LinkSchema(), LinkDesc();
    MessageReads(k, []);
    assert Message(k) + [] == Message(k);
    DecoderIsReader(S, sd, Message(k), Fresh(sd), MAX_DEPTH);
    if k <= 512 {
      LinkIsTyped();
      EncodedCost(k);
      HopDecodes(S, sd, sd, Message(k), s, MAX_DEPTH, MAX_DEPTH);
    }
  }
}
