/** The parts of keynote_parser/codec.py that differ from src/numbers_parser/iwafile.py: the
    guards on deserialising a `ProtobufPatch`, and the clamp of out-of-range floats in a dict
    about to be parsed into a protobuf message. Its framing, decompression and segment
    serialisation are the same code as iwafile.py and are modelled once, in module `Iwa`. */
module KeynoteCodec {
  import opened Outcomes

  /** The message info fields `ProtobufPatch.FromString` looks at. */
  datatype PatchInfo = PatchInfo(diffFieldPath: seq<nat>, fieldsToRemove: seq<nat>)

  /** `ProtobufPatch.FromString`: a patch must name exactly one diff path and remove no fields,
      else NotImplementedError; the path's field must exist in the base message type (`fields`:
      field number to message type name) and that type must be known (`classes`), else
      KeyError; the data is then parsed as that type. */
  function PatchFromString(info: PatchInfo, fields: map<nat, string>, classes: set<string>,
                           parse: (string, seq<int>) -> Message, data: seq<int>): (r: Result<Message>)
    ensures r.Ok? <==> (|info.diffFieldPath| == 1 && info.fieldsToRemove == []
                        && info.diffFieldPath[0] in fields && fields[info.diffFieldPath[0]] in classes)
    ensures |info.diffFieldPath| != 1 || info.fieldsToRemove != [] ==> r == Err(NotImplementedError)
    ensures r.Err? ==> r.error in {NotImplementedError, KeyError}
    ensures r.Ok? ==> r.value == parse(fields[info.diffFieldPath[0]], data)
  {
    if |info.diffFieldPath| != 1 then Err(NotImplementedError)
    else if info.fieldsToRemove != [] then Err(NotImplementedError)
    else if info.diffFieldPath[0] !in fields then Err(KeyError)
    else if fields[info.diffFieldPath[0]] !in classes then Err(KeyError)
    else Ok(parse(fields[info.diffFieldPath[0]], data))
  }

  /** A parsed message, as far as this module is concerned: its type name and bytes. */
  datatype Message = Message(typeName: string, payload: seq<int>)

  // ---- the float clamp ----

  /** The largest finite single-precision float, (2 - 2^-23) * 2^127. */
  const MaxFloat: real := 340282346638528859811704183484516925440.0

  /** A value of a dict decoded from YAML/JSON. */
  datatype Json = JDict(entries: seq<Entry>) | JList(items: seq<Json>) | JFloat(f: real)
                | JInt(i: int) | JStr(s: string) | JBool(b: bool) | JNull

  datatype Entry = Entry(key: string, value: Json)

  /** `_work_around_protobuf_max_float_handling` on one dict: every float above MaxFloat
      becomes MaxFloat, nested dicts are treated the same way, and everything else, lists and
      what is inside them included, is kept. */
  function Clamped(entries: seq<Entry>): (r: seq<Entry>)
    ensures |r| == |entries|
    ensures forall k :: 0 <= k < |entries| ==> r[k].key == entries[k].key
    decreases entries
  {
    if entries == [] then []
    else [Entry(entries[0].key, ClampedValue(entries[0].value))] + Clamped(entries[1..])
  }

  function ClampedValue(v: Json): Json
    decreases v
  {
    match v
    case JDict(es) => JDict(Clamped(es))
    case JFloat(f) => if f > MaxFloat then JFloat(MaxFloat) else v
    case _ => v
  }

  /** No float above MaxFloat is reachable through dicts alone. */
  predicate FloatsBounded(entries: seq<Entry>)
    decreases entries
  {
    forall k :: 0 <= k < |entries| ==> ValueBounded(entries[k].value)
  }

  predicate ValueBounded(v: Json)
    decreases v
  {
    match v
    case JDict(es) => FloatsBounded(es)
    case JFloat(f) => f <= MaxFloat
    case _ => true
  }

  /** After the clamp every float reachable through dicts is at most MaxFloat. */
  lemma {:induction false} ClampedBounded(entries: seq<Entry>)
    ensures FloatsBounded(Clamped(entries))
    decreases entries
  {
    if entries != [] {
      ClampedValueBounded(entries[0].value);
      ClampedBounded(entries[1..]);
      var r := Clamped(entries);
      assert forall k :: 1 <= k < |r| ==> r[k] == Clamped(entries[1..])[k - 1];
    }
  }

  lemma {:induction false} ClampedValueBounded(v: Json)
    ensures ValueBounded(ClampedValue(v))
    decreases v
  {
    match v
    case JDict(es) => ClampedBounded(es);
    case _ =>
  }

  /** A dict whose floats are already in range is left exactly as it was; in particular the
      clamp is idempotent. */
  lemma {:induction false} ClampedKeepsBounded(entries: seq<Entry>)
    requires FloatsBounded(entries)
    ensures Clamped(entries) == entries
    decreases entries
  {
    if entries != [] {
      ClampedValueKeepsBounded(entries[0].value);
      assert FloatsBounded(entries[1..]) by {
        forall k | 0 <= k < |entries[1..]|
          ensures ValueBounded(entries[1..][k].value)
        {
          assert entries[1..][k] == entries[k + 1];
        }
      }
      ClampedKeepsBounded(entries[1..]);
    }
  }

  lemma {:induction false} ClampedValueKeepsBounded(v: Json)
    requires ValueBounded(v)
    ensures ClampedValue(v) == v
    decreases v
  {
    match v
    case JDict(es) => ClampedKeepsBounded(es);
    case _ =>
  }

  lemma ClampIdempotent(entries: seq<Entry>)
    ensures Clamped(Clamped(entries)) == Clamped(entries)
  {
    ClampedBounded(entries);
    ClampedKeepsBounded(Clamped(entries));
  }

  /** `_work_around_protobuf_max_float_handling`: walks the dict's items in order, recursing
      into nested dicts and overwriting each float above MaxFloat with MaxFloat. */
  method ClampFloats(entries: seq<Entry>) returns (out: seq<Entry>)
    ensures out == Clamped(entries)
    decreases entries
  {
    out := entries;
    var k := 0;
    while k < |entries|
      invariant 0 <= k <= |entries| && |out| == |entries|
      invariant forall j :: 0 <= j < k ==> out[j] == Clamped(entries)[j]
      invariant forall j :: k <= j < |entries| ==> out[j] == entries[j]
    {
      ClampedAt(entries, k);
      var v := entries[k].value;
      if v.JDict? {
        assert entries[k] in entries;
        var inner := ClampFloats(v.entries);
        out := out[k := Entry(entries[k].key, JDict(inner))];
      } else if v.JFloat? && v.f > MaxFloat {
        out := out[k := Entry(entries[k].key, JFloat(MaxFloat))];
      }
      k := k + 1;
    }
  }

  lemma {:induction false} ClampedAt(entries: seq<Entry>, k: nat)
    requires k < |entries|
    ensures Clamped(entries)[k] == Entry(entries[k].key, ClampedValue(entries[k].value))
    decreases k
  {
    if k > 0 {
      ClampedAt(entries[1..], k - 1);
    }
  }
}
