// Byte strings as the Python code sees them: slicing with Python's clamping
// rules, and the little-endian integer packings of the `struct` and `array`
// modules ("<H", "<h", "<i", "<I").

module Bytes {
  import opened Outcomes

  type byte = x: int | 0 <= x < 256

  /** 256 to the power n. */
  function Pow256(n: nat): (r: nat)
    ensures r >= 1
  {
    if n == 0 then 1 else 256 * Pow256(n - 1)
  }

  /** A Python slice index, made non-negative by adding the length and clamped into [0, len]. */
  function SliceBound(len: nat, i: int): (r: nat)
    ensures r <= len
    ensures 0 <= i <= len ==> r == i
    ensures -(len as int) <= i < 0 ==> r == i + len
  {
    if i < 0 then (if i + len < 0 then 0 else i + len)
    else if i > len then len
    else i
  }

  /** `s[start:end]` in Python: negative bounds count from the end, out-of-range bounds clamp. */
  function Slice<T>(s: seq<T>, start: int, end: int): (r: seq<T>)
    ensures |r| <= |s|
    ensures 0 <= start <= end <= |s| ==> r == s[start..end]
    ensures SliceBound(|s|, end) <= SliceBound(|s|, start) ==> r == []
  {
    var a := SliceBound(|s|, start);
    var b := SliceBound(|s|, end);
    if b <= a then [] else s[a..b]
  }

  /** The unsigned little-endian value of a byte string. */
  function LittleEndian(bs: seq<byte>): (r: nat)
    ensures r < Pow256(|bs|)
  {
    if bs == [] then 0 else bs[0] + 256 * LittleEndian(bs[1..])
  }

  /** The n low-order bytes of v, least significant first. */
  function ToLittleEndian(v: nat, n: nat): (r: seq<byte>)
    ensures |r| == n
  {
    if n == 0 then [] else [v % 256] + ToLittleEndian(v / 256, n - 1)
  }

  lemma {:induction false} LittleEndianOfBytes(v: nat, n: nat)
    requires v < Pow256(n)
    ensures LittleEndian(ToLittleEndian(v, n)) == v
    decreases n
  {
    if n > 0 {
      var t := ToLittleEndian(v / 256, n - 1);
      assert ToLittleEndian(v, n) == [v % 256] + t;
      assert ([v % 256] + t)[1..] == t;
      LittleEndianOfBytes(v / 256, n - 1);
    }
  }

  lemma {:induction false} BytesOfLittleEndian(bs: seq<byte>)
    ensures ToLittleEndian(LittleEndian(bs), |bs|) == bs
  {
    if bs != [] {
      var v := LittleEndian(bs);
      assert v % 256 == bs[0] && v / 256 == LittleEndian(bs[1..]);
      BytesOfLittleEndian(bs[1..]);
    }
  }

  /** Half of 256 to the power n: the bound of the signed n-byte range. */
  function Half(n: nat): (r: int)
    requires n > 0
    ensures r > 0 && r + r == Pow256(n)
  {
    128 * Pow256(n - 1)
  }

  /** The value an n-byte pattern with unsigned value v has in two's complement. */
  function Signed(v: nat, n: nat): (r: int)
    requires n > 0 && v < Pow256(n)
    ensures -Half(n) <= r < Half(n)
    ensures r == v || r == v - Pow256(n)
  {
    if v >= Half(n) then v - Pow256(n) else v
  }

  /** The unsigned pattern of an in-range integer: its two's complement when negative. */
  function Unsigned(v: int, n: nat): int
  {
    if v < 0 then v + Pow256(n) else v
  }

  /** `struct.unpack("<" + code, bs)[0]` for an integer code of n bytes: the length must be exact. */
  function Unpack(bs: seq<byte>, n: nat, signed: bool): (r: Result<int>)
    requires n > 0
    ensures r.Err? <==> |bs| != n
    ensures r.Err? ==> r.error == StructError
    ensures r.Ok? && !signed ==> r.value == LittleEndian(bs)
    ensures r.Ok? && signed ==> -Half(n) <= r.value < Half(n) && Unsigned(r.value, n) == LittleEndian(bs)
  {
    if |bs| != n then Err(StructError)
    else if signed then Ok(Signed(LittleEndian(bs), n))
    else Ok(LittleEndian(bs))
  }

  /** Whether `struct.pack` accepts v for an integer code of n bytes. */
  predicate InRange(v: int, n: nat, signed: bool)
    requires n > 0
  {
    if signed then -Half(n) <= v < Half(n) else 0 <= v < Pow256(n)
  }

  /** `struct.pack("<" + code, v)`: struct.error when v does not fit. */
  function Pack(v: int, n: nat, signed: bool): (r: Result<seq<byte>>)
    requires n > 0
    ensures r.Ok? <==> InRange(v, n, signed)
    ensures r.Err? ==> r.error == StructError
    ensures r.Ok? ==> |r.value| == n && LittleEndian(r.value) == Unsigned(v, n)
  {
    if !InRange(v, n, signed) then Err(StructError)
    else
      var bs := ToLittleEndian(Unsigned(v, n), n);
      LittleEndianOfBytes(Unsigned(v, n), n);
      Ok(bs)
  }

  /** What is packed unpacks to the same integer. */
  lemma UnpackPack(v: int, n: nat, signed: bool)
    requires n > 0 && InRange(v, n, signed)
    ensures Pack(v, n, signed).Ok?
    ensures Unpack(Pack(v, n, signed).value, n, signed) == Ok(v)
  {
  }

  /** What unpacks packs back to the same bytes. */
  lemma PackUnpack(bs: seq<byte>, n: nat, signed: bool)
    requires n > 0 && |bs| == n
    ensures Unpack(bs, n, signed).Ok?
    ensures Pack(Unpack(bs, n, signed).value, n, signed) == Ok(bs)
  {
    var v := Unpack(bs, n, signed).value;
    BytesOfLittleEndian(bs);
    assert InRange(v, n, signed);
  }

  /** `array.array("h", bs).tolist()`: consecutive signed 16-bit little-endian values; a byte
      string of odd length is a ValueError. */
  function Int16Array(bs: seq<byte>): (r: Result<seq<int>>)
    ensures r.Err? <==> |bs| % 2 == 1
    ensures r.Err? ==> r.error == ValueError
    ensures r.Ok? ==> |r.value| == |bs| / 2
    ensures r.Ok? ==> forall i | 0 <= i < |r.value| ::
      Unpack(bs[2 * i..2 * i + 2], 2, true) == Ok(r.value[i])
  {
    if |bs| == 0 then Ok([])
    else if |bs| == 1 then Err(ValueError)
    else
      var rest :- Int16Array(bs[2..]);
      var v := Unpack(bs[..2], 2, true).value;
      var out := [v] + rest;
      assert forall i | 1 <= i < |out| :: bs[2 * i..2 * i + 2] == bs[2..][2 * (i - 1)..2 * (i - 1) + 2];
      Ok(out)
  }

  /** `struct.pack(f"<{len(vs)}h", *vs)`: struct.error when a value does not fit 16 signed bits. */
  function PackInt16s(vs: seq<int>): (r: Result<seq<byte>>)
    ensures r.Ok? <==> forall i | 0 <= i < |vs| :: InRange(vs[i], 2, true)
    ensures r.Err? ==> r.error == StructError
    ensures r.Ok? ==> |r.value| == 2 * |vs|
  {
    if vs == [] then Ok([])
    else
      var head :- Pack(vs[0], 2, true);
      var rest :- PackInt16s(vs[1..]);
      assert forall i | 1 <= i < |vs| :: vs[i] == vs[1..][i - 1];
      Ok(head + rest)
  }

  /** Packed 16-bit values read back as the same list. */
  lemma {:induction false} Int16ArrayOfPacked(vs: seq<int>)
    requires PackInt16s(vs).Ok?
    ensures Int16Array(PackInt16s(vs).value) == Ok(vs)
  {
    if vs != [] {
      var bs := PackInt16s(vs).value;
      var head := Pack(vs[0], 2, true).value;
      var rest := PackInt16s(vs[1..]).value;
      assert bs == head + rest;
      assert bs[2..] == rest && bs[..2] == head;
      Int16ArrayOfPacked(vs[1..]);
      UnpackPack(vs[0], 2, true);
      assert vs == [vs[0]] + vs[1..];
    }
  }
}
