/** IWA files (src/numbers_parser/iwafile.py): a file is a run of frames, each a 0x00 byte, a
    3-byte little-endian length and that many bytes of Snappy-compressed data; decompressed, the
    data is a run of archive segments, each a varint-prefixed `ArchiveInfo` header followed by
    the protobuf messages it describes.

    Snappy compression, protobuf serialisation and header serialisation are foreign code: they
    are parameters of the operations that call them. A protobuf message is modelled by the
    structure `find_references` and `find_extension` walk. */
module Iwa {
  import opened Outcomes

  import opened Bytes
  import Text

  // ---- protobuf messages, as far as the walks over them need ----

  /** A field's value: a plain value, a `Reference` message (an object identifier), a nested
      message, or a repeated field. */
  datatype Value = Scalar(n: int) | Ref(identifier: nat) | Sub(msg: Message) | Repeated(items: seq<Value>)

  /** A field that is set, with its name. */
  datatype Field = Field(name: string, value: Value)

  /** A message: its full type name (e.g. "TST.TileArchive"), its set fields in field-number
      order and the extension messages set on it. */
  datatype Message = Message(typeName: string, fields: seq<Field>, extensions: seq<Message>)

  /** `find_references` on a value: the identifiers of every `Reference` reached through nested
      messages, repeated fields and extensions, in field order. */
  function References(v: Value): seq<nat>
    decreases v
  {
    match v
    case Scalar(_) => []
    case Ref(i) => [i]
    case Sub(m) => MessageRefs(m)
    case Repeated(items) => ItemsRefs(items)
  }

  function ItemsRefs(items: seq<Value>): seq<nat>
    decreases items
  {
    if items == [] then [] else References(items[0]) + ItemsRefs(items[1..])
  }

  function MessageRefs(m: Message): seq<nat>
    decreases m
  {
    FieldsRefs(m.fields) + ExtensionsRefs(m.extensions)
  }

  function FieldsRefs(fs: seq<Field>): seq<nat>
    decreases fs
  {
    if fs == [] then [] else References(fs[0].value) + FieldsRefs(fs[1..])
  }

  function ExtensionsRefs(es: seq<Message>): seq<nat>
    decreases es
  {
    if es == [] then [] else MessageRefs(es[0]) + ExtensionsRefs(es[1..])
  }

  /** A `Reference` to `id` sits somewhere inside the value. */
  predicate Mentions(v: Value, id: nat)
    decreases v
  {
    match v
    case Scalar(_) => false
    case Ref(i) => i == id
    case Sub(m) => MessageMentions(m, id)
    case Repeated(items) => exists k :: 0 <= k < |items| && Mentions(items[k], id)
  }

  predicate MessageMentions(m: Message, id: nat)
    decreases m
  {
    (exists k :: 0 <= k < |m.fields| && FieldMentions(m.fields[k], id))
    || (exists k :: 0 <= k < |m.extensions| && MessageMentions(m.extensions[k], id))
  }

  predicate FieldMentions(f: Field, id: nat)
    decreases f
  {
    Mentions(f.value, id)
  }

  /** `find_references` finds exactly the identifiers referenced inside the value. */
  lemma {:induction false} ReferencesComplete(v: Value, id: nat)
    ensures id in References(v) <==> Mentions(v, id)
    decreases v
  {
    match v
    case Scalar(_) =>
    case Ref(i) =>
    case Sub(m) => MessageRefsComplete(m, id);
    case Repeated(items) => ItemsRefsComplete(items, id);
  }

  lemma {:induction false} ItemsRefsComplete(items: seq<Value>, id: nat)
    ensures id in ItemsRefs(items) <==> exists k :: 0 <= k < |items| && Mentions(items[k], id)
    decreases items
  {
    if items != [] {
      ReferencesComplete(items[0], id);
      ItemsRefsComplete(items[1..], id);
      if exists k :: 0 <= k < |items| && Mentions(items[k], id) {
        var k :| 0 <= k < |items| && Mentions(items[k], id);
        if k > 0 {
          assert items[1..][k - 1] == items[k];
        }
      }
      if exists k :: 0 <= k < |items[1..]| && Mentions(items[1..][k], id) {
        var k :| 0 <= k < |items[1..]| && Mentions(items[1..][k], id);
        assert items[k + 1] == items[1..][k];
      }
    }
  }

  lemma {:induction false} MessageRefsComplete(m: Message, id: nat)
    ensures id in MessageRefs(m) <==> MessageMentions(m, id)
    decreases m
  {
    FieldsRefsComplete(m.fields, id);
    ExtensionsRefsComplete(m.extensions, id);
  }

  lemma {:induction false} FieldsRefsComplete(fs: seq<Field>, id: nat)
    ensures id in FieldsRefs(fs) <==> exists k :: 0 <= k < |fs| && FieldMentions(fs[k], id)
    decreases fs
  {
    if fs != [] {
      ReferencesComplete(fs[0].value, id);
      FieldsRefsComplete(fs[1..], id);
      if exists k :: 0 <= k < |fs| && FieldMentions(fs[k], id) {
        var k :| 0 <= k < |fs| && FieldMentions(fs[k], id);
        if k > 0 {
          assert fs[1..][k - 1] == fs[k];
        }
      }
      if exists k :: 0 <= k < |fs[1..]| && FieldMentions(fs[1..][k], id) {
        var k :| 0 <= k < |fs[1..]| && FieldMentions(fs[1..][k], id);
        assert fs[k + 1] == fs[1..][k];
      }
    }
  }

  lemma {:induction false} ExtensionsRefsComplete(es: seq<Message>, id: nat)
    ensures id in ExtensionsRefs(es) <==> exists k :: 0 <= k < |es| && MessageMentions(es[k], id)
    decreases es
  {
    if es != [] {
      MessageRefsComplete(es[0], id);
      ExtensionsRefsComplete(es[1..], id);
      if exists k :: 0 <= k < |es| && MessageMentions(es[k], id) {
        var k :| 0 <= k < |es| && MessageMentions(es[k], id);
        if k > 0 {
          assert es[1..][k - 1] == es[k];
        }
      }
      if exists k :: 0 <= k < |es[1..]| && MessageMentions(es[1..][k], id) {
        var k :| 0 <= k < |es[1..]| && MessageMentions(es[1..][k], id);
        assert es[k + 1] == es[1..][k];
      }
    }
  }

  /** `getattr(m, name, None)`: the value of the message's field called `name`, if it is set. */
  function Attr(m: Message, name: string): (r: Option<Value>)
    ensures r.Some? <==> exists k :: 0 <= k < |m.fields| && m.fields[k].name == name
    ensures r.Some? ==> exists k :: 0 <= k < |m.fields| && m.fields[k] == Field(name, r.value)
    decreases |m.fields|
  {
    if m.fields == [] then None
    else if m.fields[0].name == name then Some(m.fields[0].value)
    else
      var r := Attr(Message(m.typeName, m.fields[1..], m.extensions), name);
      assert forall k :: 1 <= k < |m.fields| ==> m.fields[k] == m.fields[1..][k - 1];
      r
  }

  /** `find_extension`: the attribute `name` of the first extension that has it; an
      IndexError when none has. */
  function FindExtension(m: Message, name: string): (r: Result<Value>)
    ensures r.Err? <==> forall k :: 0 <= k < |m.extensions| ==> Attr(m.extensions[k], name).None?
    ensures r.Ok? ==> (FirstWith(m.extensions, name) < |m.extensions|
      && Attr(m.extensions[FirstWith(m.extensions, name)], name) == Some(r.value))
    ensures r.Err? ==> r.error == IndexError
  {
    FirstAttr(m.extensions, name)
  }

  /** The position of the first message that has the attribute `name`, or the length of the
      sequence when none has. */
  function FirstWith(es: seq<Message>, name: string): (k: nat)
    ensures k <= |es|
    ensures forall j :: 0 <= j < k ==> Attr(es[j], name).None?
    ensures k < |es| ==> Attr(es[k], name).Some?
  {
    if es == [] || Attr(es[0], name).Some? then 0
    else
      assert forall j :: 1 <= j < |es| ==> es[j] == es[1..][j - 1];
      1 + FirstWith(es[1..], name)
  }

  function FirstAttr(es: seq<Message>, name: string): (r: Result<Value>)
    ensures r.Ok? <==> FirstWith(es, name) < |es|
    ensures r.Ok? ==> Attr(es[FirstWith(es, name)], name) == Some(r.value)
    ensures r.Err? ==> r.error == IndexError
  {
    if es == [] then Err(IndexError)
    else if Attr(es[0], name).Some? then Ok(Attr(es[0], name).value)
    else
      var r := FirstAttr(es[1..], name);
      assert r.Ok? ==> es[FirstWith(es, name)] == es[1..][FirstWith(es[1..], name)];
      r
  }

  // ---- frames ----

  /** Bytes 1..3 of a frame header, read little-endian. */
  function HeaderLength(data: seq<byte>): nat
    requires |data| >= 4
  {
    data[1] as int + 256 * (data[2] as int) + 65536 * (data[3] as int)
  }

  /** The data is an exact run of frames: each starts with 0x00 and its length fits what is
      left. */
  predicate Framed(data: seq<byte>)
    decreases |data|
  {
    data == []
    || (|data| >= 4 && data[0] == 0 && 4 + HeaderLength(data) <= |data|
        && Framed(data[4 + HeaderLength(data)..]))
  }

  /** The walk of `is_iwa_file`: Some(total of the frame lengths plus 4 per frame) when every
      frame starts with 0x00, None when one does not, and a struct error when the data ends
      inside a frame header. A frame longer than the data ends the walk. */
  function Scan(data: seq<byte>): Result<Option<nat>>
    decreases |data|
  {
    if data == [] then Ok(Some(0))
    else if data[0] != 0 then Ok(None)
    else if |data| < 4 then Err(StructError)
    else
      var n := HeaderLength(data);
      var rest := if 4 + n <= |data| then data[4 + n..] else [];
      var r :- Scan(rest);
      Ok(if r.None? then None else Some(n + 4 + r.value))
  }

  /** `is_iwa_file` as a value: true when the frame lengths add up to the data's length. */
  function IsIwaFileSpec(data: seq<byte>): Result<bool>
  {
    var r :- Scan(data);
    Ok(r.Some? && r.value == |data|)
  }

  /** Adds the bytes already walked to the walk of the rest. */
  function Shift(r: Result<Option<nat>>, walked: nat): Result<Option<nat>>
  {
    match r
    case Ok(Some(t)) => Ok(Some(t + walked))
    case _ => r
  }

  /** `is_iwa_file` */
  method IsIwaFile(data: seq<byte>) returns (r: Result<bool>)
    ensures r == IsIwaFileSpec(data)
    ensures r == Ok(true) <==> Framed(data)
  {
    FramedIffWalked(data);
    var rest := data;
    var length: nat := 0;
    while rest != []
      invariant Scan(data) == Shift(Scan(rest), length)
      decreases |rest|
    {
      if rest[0] != 0 {
        return Ok(false);
      }
      if |rest| < 4 {
        return Err(StructError);
      }
      var segmentLength := HeaderLength(rest);
      ScanStep(rest, length);
      length := length + segmentLength + 4;
      rest := if 4 + segmentLength <= |rest| then rest[4 + segmentLength..] else [];
    }
    return Ok(length == |data|);
  }

  /** One frame header walked: its length moves from the walk of the rest to the total. */
  lemma ScanStep(rest: seq<byte>, walked: nat)
    requires |rest| >= 4 && rest[0] == 0
    ensures var n := HeaderLength(rest);
      var next := if 4 + n <= |rest| then rest[4 + n..] else [];
      Shift(Scan(rest), walked) == Shift(Scan(next), walked + n + 4)
  {
  }

  /** The walk's total reaches the data's length exactly when the data is framed; otherwise a
      frame ran past the end and the total is larger. */
  lemma {:induction false} ScanTotal(data: seq<byte>)
    ensures Framed(data) ==> Scan(data) == Ok(Some(|data|))
    ensures Scan(data).Ok? && Scan(data).value.Some? ==>
      Scan(data).value.value >= |data| && (Scan(data).value.value == |data| ==> Framed(data))
    decreases |data|
  {
    if data != [] && data[0] == 0 && |data| >= 4 {
      var n := HeaderLength(data);
      var rest := if 4 + n <= |data| then data[4 + n..] else [];
      ScanTotal(rest);
    }
  }

  lemma FramedIffWalked(data: seq<byte>)
    ensures IsIwaFileSpec(data) == Ok(true) <==> Framed(data)
  {
    ScanTotal(data);
  }

  // ---- chunk framing ----

  /** The largest uncompressed piece `to_buffer` compresses at a time. */
  const PieceSize: nat := 65536

  /** Frame lengths are three bytes wide. */
  const FrameLimit: nat := 0x100_0000

  /** The pieces `to_buffer` cuts the uncompressed data into: every piece is 64 KiB except a
      shorter, non-empty last one, and together they are the data. */
  function Pieces(u: seq<byte>): (ps: seq<seq<byte>>)
    ensures Concat(ps) == u
    ensures forall k :: 0 <= k < |ps| ==> 0 < |ps[k]| <= PieceSize
    ensures forall k :: 0 <= k < |ps| - 1 ==> |ps[k]| == PieceSize
    decreases |u|
  {
    if u == [] then []
    else if |u| <= PieceSize then [u]
    else [u[..PieceSize]] + Pieces(u[PieceSize..])
  }

  function Concat(ps: seq<seq<byte>>): seq<byte>
  {
    if ps == [] then [] else ps[0] + Concat(ps[1..])
  }

  /** One frame: 0x00, the first three bytes of the payload's length packed as a little-endian
      32-bit word, then the payload. */
  function FrameOf(payload: seq<byte>): (f: seq<byte>)
    ensures |f| == 4 + |payload| && f[0] == 0 && f[4..] == payload
    ensures |payload| < FrameLimit ==> HeaderLength(f) == |payload|
  {
    var n := |payload|;
    LittleEndian3(n);
    [0, n % 256, (n / 256) % 256, (n / 65536) % 256] + payload
  }

  lemma LittleEndian3(n: nat)
    ensures n < FrameLimit ==> n % 256 + 256 * ((n / 256) % 256) + 65536 * ((n / 65536) % 256) == n
  {
    if n < FrameLimit {
      var a, b, c := n % 256, (n / 256) % 256, n / 65536;
      assert n / 256 == b + 256 * c;
      assert c < 256;
    }
  }

  /** The frames of the compressed pieces, in order. */
  function Frames(payloads: seq<seq<byte>>): seq<byte>
  {
    if payloads == [] then [] else FrameOf(payloads[0]) + Frames(payloads[1..])
  }

  function Compressed(ps: seq<seq<byte>>, compress: seq<byte> -> seq<byte>): (cs: seq<seq<byte>>)
    ensures |cs| == |ps| && forall k :: 0 <= k < |ps| ==> cs[k] == compress(ps[k])
  {
    if ps == [] then [] else [compress(ps[0])] + Compressed(ps[1..], compress)
  }

  /** `IWACompressedChunk.to_buffer` after the archives are joined: the frames of the
      compressed 64 KiB pieces of the uncompressed bytes. */
  function ChunkBytes(u: seq<byte>, compress: seq<byte> -> seq<byte>): seq<byte>
  {
    Frames(Compressed(Pieces(u), compress))
  }

  /** `IWACompressedChunk.to_buffer`, framing the joined archive bytes `uncompressed`. */
  method ChunkToBuffer(uncompressed: seq<byte>, compress: seq<byte> -> seq<byte>) returns (out: seq<byte>)
    ensures out == ChunkBytes(uncompressed, compress)
  {
    var rest := uncompressed;
    var payloads: seq<seq<byte>> := [];
    while rest != []
      invariant Compressed(Pieces(uncompressed), compress) == payloads + Compressed(Pieces(rest), compress)
      decreases |rest|
    {
      var piece := if |rest| <= PieceSize then rest else rest[..PieceSize];
      var next := if |rest| <= PieceSize then [] else rest[PieceSize..];
      PiecesStep(rest, compress);
      Text.AppendAssoc(payloads, [compress(piece)], Compressed(Pieces(next), compress));
      payloads := payloads + [compress(piece)];
      rest := next;
    }
    assert payloads + Compressed(Pieces(rest), compress) == payloads;
    out := Frames(payloads);
  }

  /** The first piece of `rest` comes off the front of its compressed pieces. */
  lemma PiecesStep(rest: seq<byte>, compress: seq<byte> -> seq<byte>)
    requires rest != []
    ensures var piece := if |rest| <= PieceSize then rest else rest[..PieceSize];
      var next := if |rest| <= PieceSize then [] else rest[PieceSize..];
      Compressed(Pieces(rest), compress) == [compress(piece)] + Compressed(Pieces(next), compress)
  {
    var ps := Pieces(rest);
    assert Compressed(ps, compress) == [compress(ps[0])] + Compressed(ps[1..], compress);
    if |rest| <= PieceSize {
      assert ps == [rest];
      assert ps[1..] == [] == Pieces([]);
    } else {
      assert ps == [rest[..PieceSize]] + Pieces(rest[PieceSize..]);
      assert ps[1..] == Pieces(rest[PieceSize..]);
    }
  }

  /** `_decompress_all`, joined: every frame must start with 0x00 (else a ValueError) and have
      a whole header (else a struct error); its payload, cut short by the end of the data, is
      decompressed, or kept as it is when `uncompress` fails. */
  function DecompressAllSpec(data: seq<byte>, uncompress: seq<byte> -> Option<seq<byte>>): Result<seq<byte>>
    decreases |data|
  {
    if data == [] then Ok([])
    else if data[0] != 0 then Err(ValueError)
    else if |data| < 4 then Err(StructError)
    else
      var end := if 4 + HeaderLength(data) <= |data| then 4 + HeaderLength(data) else |data|;
      var rest :- DecompressAllSpec(data[end..], uncompress);
      Ok(Inflate(data[4..end], uncompress) + rest)
  }

  /** One payload decompressed, or left as it is when that fails. */
  function Inflate(chunk: seq<byte>, uncompress: seq<byte> -> Option<seq<byte>>): seq<byte>
  {
    match uncompress(chunk)
    case Some(u) => u
    case None => chunk
  }

  function Prepend(p: seq<byte>, r: Result<seq<byte>>): Result<seq<byte>>
  {
    if r.Ok? then Ok(p + r.value) else r
  }

  lemma PrependTwice(a: seq<byte>, b: seq<byte>, r: Result<seq<byte>>)
    ensures Prepend(a, Prepend(b, r)) == Prepend(a + b, r)
  {
    if r.Ok? {
      assert a + (b + r.value) == (a + b) + r.value;
    }
  }

  /** `IWACompressedChunk._decompress_all`, with its pieces joined. */
  method DecompressAll(data: seq<byte>, uncompress: seq<byte> -> Option<seq<byte>>) returns (r: Result<seq<byte>>)
    ensures r == DecompressAllSpec(data, uncompress)
  {
    var rest := data;
    var out: seq<byte> := [];
    assert Prepend(out, DecompressAllSpec(rest, uncompress)) == DecompressAllSpec(rest, uncompress) by {
      if DecompressAllSpec(rest, uncompress).Ok? {
        assert out + DecompressAllSpec(rest, uncompress).value == DecompressAllSpec(rest, uncompress).value;
      }
    }
    while rest != []
      invariant DecompressAllSpec(data, uncompress) == Prepend(out, DecompressAllSpec(rest, uncompress))
      decreases |rest|
    {
      if rest[0] != 0 {
        return Err(ValueError);
      }
      if |rest| < 4 {
        return Err(StructError);
      }
      var length := HeaderLength(rest);
      var end := if 4 + length <= |rest| then 4 + length else |rest|;
      var piece := Inflate(rest[4..end], uncompress);
      assert DecompressAllSpec(rest, uncompress) == Prepend(piece, DecompressAllSpec(rest[end..], uncompress));
      PrependTwice(out, piece, DecompressAllSpec(rest[end..], uncompress));
      out := out + piece;
      rest := rest[end..];
    }
    assert out + [] == out;
    return Ok(out);
  }

  /** Framing then unframing gives back the uncompressed data, as long as Snappy inverts itself
      on every piece and no compressed piece needs more than three length bytes. */
  lemma ChunkRoundTrip(u: seq<byte>, compress: seq<byte> -> seq<byte>, uncompress: seq<byte> -> Option<seq<byte>>)
    requires forall p :: |p| <= PieceSize ==> uncompress(compress(p)) == Some(p) && |compress(p)| < FrameLimit
    ensures DecompressAllSpec(ChunkBytes(u, compress), uncompress) == Ok(u)
    ensures IsIwaFileSpec(ChunkBytes(u, compress)) == Ok(true)
  {
    PiecesRoundTrip(Pieces(u), compress, uncompress);
    FramesFramed(Compressed(Pieces(u), compress));
    FramedIffWalked(ChunkBytes(u, compress));
  }

  lemma {:induction false} PiecesRoundTrip(ps: seq<seq<byte>>, compress: seq<byte> -> seq<byte>, uncompress: seq<byte> -> Option<seq<byte>>)
    requires forall k :: 0 <= k < |ps| ==> |ps[k]| <= PieceSize
    requires forall p :: |p| <= PieceSize ==> uncompress(compress(p)) == Some(p) && |compress(p)| < FrameLimit
    ensures DecompressAllSpec(Frames(Compressed(ps, compress)), uncompress) == Ok(Concat(ps))
  {
    if ps != [] {
      var cs := Compressed(ps, compress);
      assert cs[1..] == Compressed(ps[1..], compress);
      PiecesRoundTrip(ps[1..], compress, uncompress);
      FrameThenRest(cs[0], Frames(cs[1..]), uncompress);
      assert Inflate(cs[0], uncompress) == ps[0];
      assert Concat(ps) == ps[0] + Concat(ps[1..]);
    }
  }

  /** A frame in front of the rest of the data is unframed on its own. */
  lemma FrameThenRest(c: seq<byte>, t: seq<byte>, uncompress: seq<byte> -> Option<seq<byte>>)
    requires |c| < FrameLimit
    ensures DecompressAllSpec(FrameOf(c) + t, uncompress) == Prepend(Inflate(c, uncompress), DecompressAllSpec(t, uncompress))
  {
    var f := FrameOf(c);
    var data := f + t;
    assert data[..|f|] == f;
    assert HeaderLength(data) == HeaderLength(f);
    assert data[4..|f|] == c;
    assert data[|f|..] == t;
  }

  lemma {:induction false} FramesFramed(payloads: seq<seq<byte>>)
    requires forall k :: 0 <= k < |payloads| ==> |payloads[k]| < FrameLimit
    ensures Framed(Frames(payloads))
  {
    if payloads != [] {
      FramesFramed(payloads[1..]);
      var f := FrameOf(payloads[0]);
      var data := f + Frames(payloads[1..]);
      assert data[..|f|] == f;
      assert HeaderLength(data) == HeaderLength(f);
      assert data[|f|..] == Frames(payloads[1..]);
    }
  }

  // ---- archive segments ----

  /** One entry of an `ArchiveInfo` header's `message_infos`. */
  datatype MessageInfo = MessageInfo(typeId: nat, version: seq<nat>, length: nat, objectReferences: seq<nat>)

  /** The `ArchiveInfo` header of a segment. */
  datatype ArchiveInfo = ArchiveInfo(identifier: nat, messageInfos: seq<MessageInfo>, shouldMerge: bool)

  /** A message info as `header_to_dict` leaves it: everything but the length. */
  datatype InfoDict = InfoDict(typeId: nat, version: seq<nat>, objectReferences: seq<nat>)

  datatype HeaderDict = HeaderDict(identifier: nat, messageInfos: seq<InfoDict>, shouldMerge: bool)

  /** `header_to_dict`: the header as a dict, with every message info's length deleted. */
  function HeaderToDict(h: ArchiveInfo): (d: HeaderDict)
    ensures d.identifier == h.identifier && d.shouldMerge == h.shouldMerge
    ensures |d.messageInfos| == |h.messageInfos|
    ensures forall k :: 0 <= k < |h.messageInfos| ==>
      d.messageInfos[k].typeId == h.messageInfos[k].typeId
      && d.messageInfos[k].version == h.messageInfos[k].version
      && d.messageInfos[k].objectReferences == h.messageInfos[k].objectReferences
  {
    HeaderDict(h.identifier, seq(|h.messageInfos|, k requires 0 <= k < |h.messageInfos| =>
      InfoDict(h.messageInfos[k].typeId, h.messageInfos[k].version, h.messageInfos[k].objectReferences)), h.shouldMerge)
  }

  /** `dict_to_header`: the header back from a dict, every length a placeholder 0. */
  function DictToHeader(d: HeaderDict): (h: ArchiveInfo)
    ensures h.identifier == d.identifier && h.shouldMerge == d.shouldMerge
    ensures |h.messageInfos| == |d.messageInfos|
    ensures forall k :: 0 <= k < |d.messageInfos| ==> h.messageInfos[k].length == 0
  {
    ArchiveInfo(d.identifier, seq(|d.messageInfos|, k requires 0 <= k < |d.messageInfos| =>
      MessageInfo(d.messageInfos[k].typeId, d.messageInfos[k].version, 0, d.messageInfos[k].objectReferences)), d.shouldMerge)
  }

  /** A header with every length reset to 0. */
  function ZeroLengths(h: ArchiveInfo): ArchiveInfo
  {
    h.(messageInfos := seq(|h.messageInfos|, k requires 0 <= k < |h.messageInfos| => h.messageInfos[k].(length := 0)))
  }

  /** A dict read back into a header and written out again is the same dict. */
  lemma DictRoundTrip(d: HeaderDict)
    ensures HeaderToDict(DictToHeader(d)) == d
  {
    assert HeaderToDict(DictToHeader(d)).messageInfos == d.messageInfos;
  }

  /** A header written out as a dict and read back loses only its lengths. */
  lemma HeaderRoundTrip(h: ArchiveInfo)
    ensures DictToHeader(HeaderToDict(h)) == ZeroLengths(h)
  {
    assert DictToHeader(HeaderToDict(h)).messageInfos == ZeroLengths(h).messageInfos;
  }

  /** The serialized objects, in order. */
  function Serialized(objects: seq<Message>, serialize: Message -> seq<byte>): (bs: seq<seq<byte>>)
    ensures |bs| == |objects| && forall k :: 0 <= k < |objects| ==> bs[k] == serialize(objects[k])
  {
    if objects == [] then [] else [serialize(objects[0])] + Serialized(objects[1..], serialize)
  }

  /** The lengths the `zip` loop of `to_buffer` leaves: each message info paired with an object
      gets that object's serialized length; the rest keep theirs. */
  function FixedLengths(infos: seq<MessageInfo>, objects: seq<Message>, serialize: Message -> seq<byte>): (r: seq<MessageInfo>)
    ensures |r| == |infos|
    ensures forall k :: 0 <= k < |infos| ==>
      r[k] == if k < |objects| then infos[k].(length := |serialize(objects[k])|) else infos[k]
  {
    seq(|infos|, k requires 0 <= k < |infos| =>
      if k < |objects| then infos[k].(length := |serialize(objects[k])|) else infos[k])
  }

  /** The object payloads `IWAArchiveSegment.from_buffer` cuts from what follows the header:
      one slice per message info, of that info's length, and the bytes left after them. */
  function SplitObjects(payload: seq<byte>, infos: seq<MessageInfo>): (seq<seq<byte>>, seq<byte>)
  {
    if infos == [] then ([], payload)
    else
      var n := if infos[0].length <= |payload| then infos[0].length else |payload|;
      var (more, left) := SplitObjects(payload[n..], infos[1..]);
      ([payload[..n]] + more, left)
  }

  /** A first slice of exactly the first info's length comes off the front. */
  lemma SplitFirst(first: seq<byte>, tail: seq<byte>, infos: seq<MessageInfo>)
    requires infos != [] && infos[0].length == |first|
    ensures var (more, left) := SplitObjects(tail, infos[1..]);
      SplitObjects(first + tail, infos) == ([first] + more, left)
  {
    var payload := first + tail;
    assert payload[..|first|] == first;
    assert payload[|first|..] == tail;
  }

  /** With the lengths `to_buffer` writes, reading the objects back cuts exactly the serialized
      objects out of the payload and leaves whatever follows them (the next segment). */
  lemma {:induction false} SplitObjectsOfFixed(objects: seq<Message>, infos: seq<MessageInfo>, serialize: Message -> seq<byte>, rest: seq<byte>)
    requires |infos| == |objects|
    ensures SplitObjects(Concat(Serialized(objects, serialize)) + rest, FixedLengths(infos, objects, serialize))
      == (Serialized(objects, serialize), rest)
  {
    if objects != [] {
      var bs := Serialized(objects, serialize);
      var fixed := FixedLengths(infos, objects, serialize);
      assert bs[1..] == Serialized(objects[1..], serialize);
      assert fixed[1..] == FixedLengths(infos[1..], objects[1..], serialize);
      SplitObjectsOfFixed(objects[1..], infos[1..], serialize, rest);
      assert Concat(bs) == bs[0] + Concat(bs[1..]);
      Text.AppendAssoc(bs[0], Concat(bs[1..]), rest);
      SplitFirst(bs[0], Concat(bs[1..]) + rest, fixed);
      assert [bs[0]] + bs[1..] == bs;
    } else {
      assert Concat(Serialized(objects, serialize)) + rest == rest;
    }
  }

  /** An archive segment: its header and its decoded objects. */
  class ArchiveSegment {
    var header: ArchiveInfo
    var objects: seq<Message>

    constructor (header: ArchiveInfo, objects: seq<Message>)
      ensures this.header == header && this.objects == objects
    {
      this.header := header;
      this.objects := objects;
    }

    /** `IWAArchiveSegment.to_buffer`: first make each message info's length its object's
        serialized length, then emit the header's size as a varint, the header and the
        objects. `serialize`, `serializeHeader` and `varint` stand for protobuf. */
    method ToBuffer(serialize: Message -> seq<byte>, serializeHeader: ArchiveInfo -> seq<byte>, varint: nat -> seq<byte>)
      returns (out: seq<byte>)
      modifies this
      ensures objects == old(objects)
      ensures header == old(header).(messageInfos := FixedLengths(old(header.messageInfos), objects, serialize))
      ensures out == varint(|serializeHeader(header)|) + serializeHeader(header) + Concat(Serialized(objects, serialize))
    {
      var k := 0;
      while k < |objects| && k < |header.messageInfos|
        invariant 0 <= k <= |objects|
        invariant objects == old(objects)
        invariant header.identifier == old(header).identifier && header.shouldMerge == old(header).shouldMerge
        invariant |header.messageInfos| == |old(header.messageInfos)|
        invariant forall j :: 0 <= j < |header.messageInfos| ==>
          header.messageInfos[j] == if j < k then old(header.messageInfos)[j].(length := |serialize(objects[j])|)
                                    else old(header.messageInfos)[j]
      {
        var objectLength := |serialize(objects[k])|;
        if objectLength != header.messageInfos[k].length {
          header := header.(messageInfos := header.messageInfos[k := header.messageInfos[k].(length := objectLength)]);
        }
        k := k + 1;
      }
      assert header.messageInfos == FixedLengths(old(header.messageInfos), objects, serialize);
      out := varint(|serializeHeader(header)|) + serializeHeader(header) + Concat(Serialized(objects, serialize));
    }
  }

  /** The archives of one compressed chunk. */
  class CompressedChunk {
    var archives: seq<ArchiveSegment>

    constructor (archives: seq<ArchiveSegment>)
      ensures this.archives == archives
    {
      this.archives := archives;
    }
  }

  /** An IWA file: its chunks. */
  class IwaFile {
    var chunks: seq<CompressedChunk>

    constructor (chunks: seq<CompressedChunk>)
      ensures this.chunks == chunks
    {
      this.chunks := chunks;
    }
  }

  /** What `copy_object_to_iwa_file` does to one archive whose identifier matches: its first
      object becomes `obj` (protobuf's `CopyFrom`, a TypeError between different message types),
      and, if `obj` holds references, the first message info's `object_references` become
      exactly those; an archive without objects, or without message infos when there are
      references to record, is an IndexError. */
  function CopyInto(header: ArchiveInfo, objects: seq<Message>, obj: Message): (r: Result<(ArchiveInfo, seq<Message>)>)
    ensures r.Ok? <==> (|objects| > 0 && objects[0].typeName == obj.typeName
                        && (References(Sub(obj)) != [] ==> |header.messageInfos| > 0))
    ensures r.Err? ==> r.error in {IndexError, TypeError}
    ensures r.Ok? ==> r.value.1 == objects[0 := obj] && r.value.0.identifier == header.identifier
    ensures r.Ok? && References(Sub(obj)) == [] ==> r.value.0 == header
    ensures r.Ok? && References(Sub(obj)) != [] ==>
      r.value.0.messageInfos == header.messageInfos[0 := header.messageInfos[0].(objectReferences := References(Sub(obj)))]
  {
    if |objects| == 0 then Err(IndexError)
    else if objects[0].typeName != obj.typeName then Err(TypeError)
    else
      var refs := References(Sub(obj));
      if |refs| == 0 then Ok((header, objects[0 := obj]))
      else if |header.messageInfos| == 0 then Err(IndexError)
      else
        var info := header.messageInfos[0];
        Ok((header.(messageInfos := header.messageInfos[0 := info.(objectReferences := refs)]), objects[0 := obj]))
  }

  /** Copying the same object twice changes nothing the first copy did not. */
  lemma CopyIntoIdempotent(header: ArchiveInfo, objects: seq<Message>, obj: Message)
    requires CopyInto(header, objects, obj).Ok?
    ensures CopyInto(CopyInto(header, objects, obj).value.0, CopyInto(header, objects, obj).value.1, obj)
      == CopyInto(header, objects, obj)
  {
    var once := CopyInto(header, objects, obj).value;
    assert once.1[0 := obj] == once.1;
    if References(Sub(obj)) != [] {
      var infos := once.0.messageInfos;
      assert infos[0 := infos[0].(objectReferences := References(Sub(obj)))] == infos;
    }
  }

  /** `copy_object_to_iwa_file`: every archive of the first chunk whose identifier is `objId`
      is updated as `CopyInto` says; other archives are untouched. A file without chunks is an
      IndexError; so is, or a TypeError, the first matching archive `CopyInto` rejects. */
  method CopyObjectToIwaFile(file: IwaFile, obj: Message, objId: nat) returns (r: Result<()>)
    modifies if file.chunks == [] then {} else set a | a in file.chunks[0].archives
    ensures file.chunks == [] ==> r == Err(IndexError)
    ensures file.chunks != [] ==>
      (r.Err? <==> exists a :: a in file.chunks[0].archives && old(a.header.identifier) == objId
                                && CopyInto(old(a.header), old(a.objects), obj).Err?)
    ensures r.Ok? ==> forall a :: a in file.chunks[0].archives ==>
      if old(a.header.identifier) == objId
      then (a.header, a.objects) == CopyInto(old(a.header), old(a.objects), obj).value
      else a.header == old(a.header) && a.objects == old(a.objects)
  {
    if file.chunks == [] {
      return Err(IndexError);
    }
    var archives := file.chunks[0].archives;
    var k := 0;
    while k < |archives|
      invariant 0 <= k <= |archives|
      invariant forall j :: 0 <= j < k ==>
        (old(archives[j].header.identifier) == objId ==> CopyInto(old(archives[j].header), old(archives[j].objects), obj).Ok?)
      invariant forall a :: a in archives ==>
        if a in archives[..k] && old(a.header.identifier) == objId
        then (a.header, a.objects) == CopyInto(old(a.header), old(a.objects), obj).value
        else a.header == old(a.header) && a.objects == old(a.objects)
    {
      var archive := archives[k];
      if archive.header.identifier == objId {
        var copied := CopyInto(archive.header, archive.objects, obj);
        if copied.Err? {
          assert archive in archives[..k] ==> false;
          return Err(copied.error);
        }
        if archive in archives[..k] {
          CopyIntoIdempotent(old(archive.header), old(archive.objects), obj);
        }
        archive.header, archive.objects := copied.value.0, copied.value.1;
      }
      assert archives[..k + 1] == archives[..k] + [archive];
      k := k + 1;
    }
    return Ok(());
  }

  /** `create_iwa_segment`: a segment holding `obj` under `objId`, described by one message info
      with the object's type id (a KeyError for a type the map does not know), version 1.0.5 and
      a placeholder length 0. */
  method CreateIwaSegment(objId: nat, obj: Message, nameIds: map<string, nat>) returns (r: Result<ArchiveSegment>)
    ensures r.Ok? <==> obj.typeName in nameIds
    ensures r.Err? ==> r.error == KeyError
    ensures r.Ok? ==>
      fresh(r.value) && r.value.objects == [obj]
      && r.value.header == ArchiveInfo(objId, [MessageInfo(nameIds[obj.typeName], [1, 0, 5], 0, [])], false)
  {
    if obj.typeName !in nameIds {
      return Err(KeyError);
    }
    var header := DictToHeader(HeaderDict(objId, [InfoDict(nameIds[obj.typeName], [1, 0, 5], [])], false));
    assert header.messageInfos == [MessageInfo(nameIds[obj.typeName], [1, 0, 5], 0, [])];
    var segment := new ArchiveSegment(header, [obj]);
    return Ok(segment);
  }
}
