/** 128-bit UUIDs (src/numbers_parser/numbers_uuid.py and `uuid` in src/numbers_parser/utils.py).
    A UUID is one integer below 2^128; archives store it either as two 64-bit halves (upper,
    lower) or as four 32-bit words (w3 highest .. w0 lowest). Shifts, masks and `|` on
    non-negative integers are written out as multiplication, division, remainder and `BitOr`. */
module Uuid {
  import opened Outcomes
  import opened Text

  const Two32: nat := 0x1_0000_0000
  const Two64: nat := 0x1_0000_0000_0000_0000
  const Two96: nat := 0x1_0000_0000_0000_0000_0000_0000
  const Two128: nat := 0x1_0000_0000_0000_0000_0000_0000_0000_0000

  type U32 = x: nat | x < 0x1_0000_0000
  type U64 = x: nat | x < 0x1_0000_0000_0000_0000
  type U128 = x: nat | x < 0x1_0000_0000_0000_0000_0000_0000_0000_0000

  function Pow2(k: nat): (r: nat)
    ensures r >= 1
  {
    if k == 0 then 1 else 2 * Pow2(k - 1)
  }

  /** Python's `a | b` on non-negative integers, bit by bit from the lowest. */
  function BitOr(a: nat, b: nat): nat
    decreases a + b
  {
    if a == 0 then b
    else if b == 0 then a
    else 2 * BitOr(a / 2, b / 2) + (if a % 2 == 1 || b % 2 == 1 then 1 else 0)
  }

  /** Or-ing a value shifted left by `k` bits with one below 2^k is addition: the bits do not
      overlap. */
  lemma {:induction false} BitOrDisjoint(a: nat, b: nat, k: nat)
    requires b < Pow2(k)
    ensures BitOr(a * Pow2(k), b) == a * Pow2(k) + b
    decreases k
  {
    if k > 0 && a * Pow2(k) != 0 && b != 0 {
      var x := a * Pow2(k);
      assert x == 2 * (a * Pow2(k - 1));
      assert x / 2 == a * Pow2(k - 1) && x % 2 == 0;
      BitOrDisjoint(a, b / 2, k - 1);
    }
  }

  lemma Pow2Values()
    ensures Pow2(32) == Two32 && Pow2(64) == Two64 && Pow2(96) == Two96
  {
    assert Pow2(2) == 4;
    Pow2Add(2, 2);
    assert Pow2(4) == 16;
    Pow2Add(4, 4);
    assert Pow2(8) == 256;
    Pow2Add(8, 8);
    assert Pow2(16) == 65536;
    Pow2Add(16, 16);
    assert Pow2(32) == Two32;
    Pow2Add(32, 32);
    assert Pow2(64) == Two64;
    Pow2Add(64, 32);
  }

  lemma {:induction false} Pow2Add(a: nat, b: nat)
    ensures Pow2(a + b) == Pow2(a) * Pow2(b)
    decreases a
  {
    if a > 0 {
      Pow2Add(a - 1, b);
    }
  }

  /** `upper << 64 | lower` */
  function FromHalves(upper: nat, lower: nat): nat
  {
    BitOr(upper * Two64, lower)
  }

  /** `w3 << 96 | w2 << 64 | w1 << 32 | w0` */
  function FromWords(w3: nat, w2: nat, w1: nat, w0: nat): nat
  {
    BitOr(BitOr(BitOr(w3 * Two96, w2 * Two64), w1 * Two32), w0)
  }

  /** With a lower half below 2^64 the halves combine by addition, and fit in 128 bits. */
  lemma FromHalvesValue(upper: U64, lower: U64)
    ensures FromHalves(upper, lower) == upper * Two64 + lower < Two128
  {
    Pow2Values();
    BitOrDisjoint(upper, lower, 64);
  }

  /** Shifting both operands by the same amount shifts their or. */
  lemma {:induction false} BitOrShift(a: nat, b: nat, k: nat)
    ensures BitOr(a * Pow2(k), b * Pow2(k)) == BitOr(a, b) * Pow2(k)
    decreases k
  {
    if k > 0 {
      BitOrShift(a, b, k - 1);
      var p := Pow2(k - 1);
      assert Pow2(k) == 2 * p;
      var x, y := a * p, b * p;
      MulDouble(a, p);
      MulDouble(b, p);
      MulDouble(BitOr(a, b), p);
      BitOrDouble(x, y);
      calc {
        BitOr(a * Pow2(k), b * Pow2(k));
        BitOr(2 * x, 2 * y);
        2 * BitOr(x, y);
        2 * (BitOr(a, b) * p);
        BitOr(a, b) * Pow2(k);
      }
    }
  }

  lemma MulDouble(x: nat, p: nat)
    ensures x * (2 * p) == 2 * (x * p)
  {
  }

  lemma BitOrDouble(x: nat, y: nat)
    ensures BitOr(2 * x, 2 * y) == 2 * BitOr(x, y)
  {
    if x != 0 && y != 0 {
      assert (2 * x) / 2 == x && (2 * y) / 2 == y;
    }
  }

  /** With every word below 2^32 the words combine by addition, and fit in 128 bits. */
  lemma FromWordsValue(w3: U32, w2: U32, w1: U32, w0: U32)
    ensures FromWords(w3, w2, w1, w0) == w3 * Two96 + w2 * Two64 + w1 * Two32 + w0 < Two128
  {
    Pow2Values();
    // w3 << 96 | w2 << 64
    BitOrShift(w3 * Two32, w2, 64);
    BitOrDisjoint(w3, w2, 32);
    var hi := w3 * Two32 + w2;
    assert w3 * Two96 == (w3 * Two32) * Two64;
    assert BitOr(w3 * Two96, w2 * Two64) == hi * Two64;
    // ... | w1 << 32
    BitOrShift(hi * Two32, w1, 32);
    BitOrDisjoint(hi, w1, 32);
    var mid := hi * Two32 + w1;
    assert hi * Two64 == (hi * Two32) * Two32;
    assert BitOr(hi * Two64, w1 * Two32) == mid * Two32;
    // ... | w0
    BitOrDisjoint(mid, w0, 32);
    assert mid * Two32 + w0 == w3 * Two96 + w2 * Two64 + w1 * Two32 + w0;
  }

  /** What the constructor accepts. Protobuf fields carry their declared widths; dictionary
      values are the integers that `int(...)` yields for them. */
  datatype UuidInit =
    | NoArgument
    | IntArg(i: int)
    | HexArg(s: string)
    | UuidMessage(upper: U64, lower: U64)
    | CfUuidMessage(w3: U32, w2: U32, w1: U32, w0: U32)
    | DictArg(d: map<string, nat>)
    | OtherArg

  /** `UUID(int=...)` accepts only values in 0 .. 2^128 - 1. */
  function CheckRange(v: int): (r: Result<U128>)
    ensures r.Ok? <==> 0 <= v < Two128
    ensures r.Ok? ==> r.value == v
  {
    if 0 <= v < Two128 then Ok(v) else Err(ValueError)
  }

  /** The `NumbersUUID` constructor; `generated` is the time-based UUID that `uuid1()` supplies
      when no argument is given. */
  function NumbersUuid(init: UuidInit, generated: U128): (r: Result<U128>)
    ensures init.OtherArg? ==> r == Err(UnsupportedError)
    ensures init.UuidMessage? ==> r == Ok(init.upper * Two64 + init.lower)
    ensures init.CfUuidMessage? ==> r == Ok(init.w3 * Two96 + init.w2 * Two64 + init.w1 * Two32 + init.w0)
  {
    match init
    case NoArgument => Ok(generated)
    case IntArg(i) => CheckRange(i)
    case HexArg(s) => FromHexString(s)
    case UuidMessage(upper, lower) =>
      FromHalvesValue(upper, lower);
      Ok(FromHalves(upper, lower))
    case CfUuidMessage(w3, w2, w1, w0) =>
      FromWordsValue(w3, w2, w1, w0);
      Ok(FromWords(w3, w2, w1, w0))
    case DictArg(d) =>
      if "uuid_w0" in d && "uuid_w1" in d then
        if "uuid_w3" !in d || "uuid_w2" !in d then Err(KeyError)
        else CheckRange(FromWords(d["uuid_w3"], d["uuid_w2"], d["uuid_w1"], d["uuid_w0"]))
      else if "upper" in d && "lower" in d then
        CheckRange(FromHalves(d["upper"], d["lower"]))
      else Err(UnsupportedError)
    case OtherArg => Err(UnsupportedError)
  }

  /** A dictionary naming w0 and w1 takes the word form, one naming upper and lower the half
      form, any other dictionary is refused. */
  lemma DictDispatch(d: map<string, nat>, generated: U128)
    ensures "uuid_w0" in d && "uuid_w1" in d && "uuid_w2" in d && "uuid_w3" in d ==>
      NumbersUuid(DictArg(d), generated) == CheckRange(FromWords(d["uuid_w3"], d["uuid_w2"], d["uuid_w1"], d["uuid_w0"]))
    ensures !("uuid_w0" in d && "uuid_w1" in d) && "upper" in d && "lower" in d ==>
      NumbersUuid(DictArg(d), generated) == CheckRange(FromHalves(d["upper"], d["lower"]))
    ensures !("uuid_w0" in d && "uuid_w1" in d) && !("upper" in d && "lower" in d) ==>
      NumbersUuid(DictArg(d), generated) == Err(UnsupportedError)
  {
  }

  /** `dict2` / `protobuf2`: the upper and lower 64 bits. */
  function Halves(v: U128): (h: (U64, U64))
    ensures h.0 * Two64 + h.1 == v
  {
    (v / Two64, v % Two64)
  }

  /** `dict4` / `protobuf4`: the four 32-bit words, highest first. */
  function Words(v: U128): (w: (U32, U32, U32, U32))
    ensures w.0 * Two96 + w.1 * Two64 + w.2 * Two32 + w.3 == v
  {
    WordsSplit(v);
    (v / Two96, (v / Two64) % Two32, (v / Two32) % Two32, v % Two32)
  }

  lemma WordsSplit(v: U128)
    ensures v / Two96 < Two32
    ensures (v / Two96) * Two96 + ((v / Two64) % Two32) * Two64 + ((v / Two32) % Two32) * Two32 + v % Two32 == v
  {
    var a := v / Two32;
    var b := a / Two32;
    var c := b / Two32;
    assert v / Two64 == b;
    assert v / Two96 == c;
  }

  /** Building from the two-half form of a UUID gives the UUID back. */
  lemma HalvesRoundTrip(v: U128, generated: U128)
    ensures NumbersUuid(UuidMessage(Halves(v).0, Halves(v).1), generated) == Ok(v)
    ensures NumbersUuid(DictArg(map["upper" := Halves(v).0, "lower" := Halves(v).1]), generated) == Ok(v)
  {
    var (u, l) := Halves(v);
    FromHalvesValue(u, l);
  }

  /** Building from the four-word form of a UUID gives the UUID back. */
  lemma WordsRoundTrip(v: U128, generated: U128)
    ensures var w := Words(v);
      NumbersUuid(CfUuidMessage(w.0, w.1, w.2, w.3), generated) == Ok(v)
    ensures var w := Words(v);
      NumbersUuid(DictArg(map["uuid_w3" := w.0, "uuid_w2" := w.1, "uuid_w1" := w.2, "uuid_w0" := w.3]), generated) == Ok(v)
  {
    var w := Words(v);
    FromWordsValue(w.0, w.1, w.2, w.3);
  }

  /** The message that `uuid` in utils.py is handed: a UUID message, a CFUUID message, or
      something with neither set of fields. */
  datatype UuidRef = RefHalves(upper: U64, lower: U64) | RefWords(w3: U32, w2: U32, w1: U32, w0: U32) | RefOther

  /** `utils.uuid`: a message with `upper` combines the halves, otherwise the words; a message
      without the fields is an UnsupportedError. */
  function UuidOfRef(ref: UuidRef): (r: Result<U128>)
    ensures ref.RefOther? <==> r == Err(UnsupportedError)
  {
    match ref
    case RefHalves(upper, lower) =>
      FromHalvesValue(upper, lower);
      Ok(FromHalves(upper, lower))
    case RefWords(w3, w2, w1, w0) =>
      FromWordsValue(w3, w2, w1, w0);
      Ok(FromWords(w3, w2, w1, w0))
    case RefOther => Err(UnsupportedError)
  }

  /** `utils.uuid` and the `NumbersUUID` constructor agree on the same fields. */
  lemma UuidOfRefAgrees(ref: UuidRef, generated: U128)
    ensures ref.RefHalves? ==> UuidOfRef(ref) == NumbersUuid(UuidMessage(ref.upper, ref.lower), generated)
    ensures ref.RefWords? ==> UuidOfRef(ref) == NumbersUuid(CfUuidMessage(ref.w3, ref.w2, ref.w1, ref.w0), generated)
  {
  }

  // ---- hexadecimal text form ----

  lemma Pow16Is128Bits()
    ensures Pow16(32) == Two128
  {
    assert Pow16(2) == 256;
    Pow16Add(2, 2);
    assert Pow16(4) == 65536;
    Pow16Add(4, 4);
    assert Pow16(8) == Two32;
    Pow16Add(8, 8);
    assert Pow16(16) == Two64;
    Pow16Add(16, 16);
  }

  /** `s.strip("{}")` */
  function StripBraces(s: string): (r: string)
    ensures |r| <= |s|
  {
    if |s| > 0 && (s[0] == '{' || s[0] == '}') then StripBraces(s[1..])
    else if |s| > 0 && (s[|s| - 1] == '{' || s[|s| - 1] == '}') then StripBraces(s[..|s| - 1])
    else s
  }

  /** `UUID(hex=s)`: "urn:" and "uuid:" removed, braces stripped, hyphens removed; 32
      characters must remain, and here they must all be ASCII hexadecimal digits. The text
      that `int(h, 16)` accepts besides (a "0x" prefix, a sign, underscores, whitespace,
      non-ASCII digits) is not read. */
  function FromHexString(s: string): (r: Result<U128>)
  {
    var h := ReplaceAll(StripBraces(ReplaceAll(ReplaceAll(s, "urn:", ""), "uuid:", "")), "-", "");
    if |h| == 32 && AllHex(h) then
      HexValueBound(h);
      Pow16Is128Bits();
      Ok(HexValue(h))
    else Err(ValueError)
  }

  /** The `hex` property: 32 lower-case hex digits. */
  function Hex(v: U128): (s: string)
    ensures |s| == 32
  {
    HexDigits(v, 32)
  }

  /** `str(uuid)`: the hex digits grouped 8-4-4-4-12 with hyphens. */
  function Str(v: U128): (s: string)
    ensures |s| == 36
  {
    var h := Hex(v);
    h[..8] + "-" + h[8..12] + "-" + h[12..16] + "-" + h[16..20] + "-" + h[20..]
  }

  /** The hex form of a UUID and its hyphenated string form both read back as the same UUID. */
  lemma HexRoundTrip(v: U128, generated: U128)
    ensures NumbersUuid(HexArg(Hex(v)), generated) == Ok(v)
  {
    var h := Hex(v);
    NoOccurrence(h, "urn:");
    NoOccurrence(h, "uuid:");
    NoBraces(h);
    NoOccurrence(h, "-");
    Pow16Is128Bits();
    HexValueOfHexDigits(v, 32);
  }

  /** Text made of hex digits holds no "urn:", "uuid:" or "-" to take out. */
  lemma NoOccurrence(s: string, p: string)
    requires |p| > 0 && !IsHexDigit(p[|p| - 1]) && AllHex(s)
    ensures ReplaceAll(s, p, "") == s
  {
    NoNonHexOccurrence(s, p);
    ReplaceAllAbsent(s, p, "");
  }

  lemma NoBraces(s: string)
    requires AllHex(s)
    ensures StripBraces(s) == s
  {
  }

  lemma Examples(generated: U128)
    ensures NumbersUuid(DictArg(map["a" := 1, "b" := 2]), generated) == Err(UnsupportedError)
    ensures NumbersUuid(DictArg(map["upper" := 0x1234, "lower" := 0xFFFF]), generated) == Ok(0x1234_0000_0000_0000_FFFF)
    ensures NumbersUuid(OtherArg, generated) == Err(UnsupportedError)
  {
    FromHalvesValue(0x1234, 0xFFFF);
  }
}
