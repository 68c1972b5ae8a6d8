/**
  The check for required fields: it fails exactly when a required field never occurred in
  the struct itself, wherever else its ID may occur in the message.
 */
module RequiredFields {
  import opened Common
  import opened BigEndian
  import opened Schema
  import opened Skip
  import opened Reference
  import opened SelfDelimiting
  import opened Decoding
  import opened DepthBudget

  /**
    The IDs of the fields that stand in the struct at the start of `b` with the wire type
    that the struct expects. The values, nested structs among them, are skipped over.
   */
  function Present(sd: StructDesc, b: seq<Byte>): set<nat> {
    if |b| < 3 || b[0] == STOP then {}
    else
      match SkipValue(b[0], b[3..])
      case None => {}
      case Some(n) => Known(sd, b) + Present(sd, b[3 + n..])
  }

  function Known(sd: StructDesc, b: seq<Byte>): set<nat>
    requires |b| >= 3
  {
    if KnownField(sd, b[0], Get16(b[1..])).Some? then {Get16(b[1..])} else {}
  }

  lemma FieldSeen(S: Schema, sd: StructDesc, b: seq<Byte>, p: Partial)
    requires |p.fields| == |sd.fields| && ReadField(S, sd, b, p).Some?
    ensures ReadField(S, sd, b, p).value.val.seen == p.seen + Known(sd, b)
  {
    hide ReadFieldValue, SkipValue, Get16, Built;
  }

  lemma {:induction false} SeenIsPresent(S: Schema, sd: StructDesc, b: seq<Byte>, p: Partial)
    requires |p.fields| == |sd.fields| && ReadFields(S, sd, b, p).Some?
    ensures ReadFields(S, sd, b, p).value.val.seen == p.seen + Present(sd, b)
    decreases |b|
  {
    hide ReadField, SkipValue, Known, Built;
    if b[0] != STOP {
      var h := ReadField(S, sd, b, p).value;
      ReadFieldSkips(S, sd, b, p);
      FieldSeen(S, sd, b, p);
      SeenIsPresent(S, sd, b[h.n..], h.val);
    }
  }

  lemma CompleteMeans(sd: StructDesc, p: Partial)
    ensures Complete(sd, p)
      <==> forall i :: 0 <= i < |sd.fields| && sd.fields[i].spec == Required ==> sd.fields[i].id in p.seen
  {
    forall i | 0 <= i < |sd.fields| && sd.fields[i].spec == Required
      ensures exists k :: 0 <= k < |sd.required| && sd.required[k] == sd.fields[i].id
    {
      RequiredIsListed(sd.fields, i);
    }
    forall k | 0 <= k < |sd.required|
      ensures exists i :: 0 <= i < |sd.fields| && sd.fields[i].spec == Required && sd.fields[i].id == sd.required[k]
    {
      RequiredIsField(sd.fields, k);
    }
  }

  /**
    When the fields of a message can be decoded, the message is accepted if and only if every
    required field is present; otherwise the missing field is reported at its end.
   */
  lemma RequiredCheckIsExact(S: Schema, sd: StructDesc, b: seq<Byte>, target: Value, depth: nat)
    requires target.Struct? && |target.fields| == |sd.fields| && depth > 0
    requires DecodeFields(S, sd, b, 0, Partial(target.fields, [], {}), depth - 1).Ok?
    ensures var n := DecodeFields(S, sd, b, 0, Partial(target.fields, [], {}), depth - 1).n;
      var o := DecodeStruct(S, sd, b, target, depth);
      if forall i :: 0 <= i < |sd.fields| && sd.fields[i].spec == Required ==> sd.fields[i].id in Present(sd, b)
      then o.Ok? && o.n == n
      else o == Err(n, RequiredNotSet)
  {
    hide ReadFields, DecodeFields, Present, Complete, Built;
    var p := Partial(target.fields, [], {});
    assert b[0..] == b;
    FieldsMeets(S, sd, b, 0, p, depth - 1);
    SeenIsPresent(S, sd, b, p);
    CompleteMeans(sd, DecodeFields(S, sd, b, 0, p, depth - 1).val);
  }
}
