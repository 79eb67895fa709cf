/** The unpacker's checks and its UUID prettifier (src/numbers_parser/_unpack_numbers.py).
    Archives are unpacked to JSON; with `--hex-uuids` every nested dictionary that
    `NumbersUUID` accepts is written as the UUID's string form instead. */
module UnpackNumbers {
  import opened Outcomes
  import opened Decimal
  import Uuid
  import opened JsonValues

  /** `int(v)` on a JSON value: numbers as they are, booleans as 0 and 1, text written as
      an optionally signed decimal (else ValueError); anything else raises TypeError. */
  function IntOf(v: Json): (r: Result<int>)
    ensures v.JNum? ==> r == Ok(v.n)
    ensures r.Err? ==> r.error in {ValueError, TypeError}
  {
    match v
    case JNum(n) => Ok(n)
    case JBool(b) => Ok(if b then 1 else 0)
    case JStr(s) =>
      if s != [] && (s[0] == '-' || s[0] == '+') && |s| > 1 && AllDigits(s[1..]) then
        var m: int := DigitsValue(s[1..]);
        Ok(if s[0] == '-' then -m else m)
      else if s != [] && AllDigits(s) then Ok(DigitsValue(s))
      else Err(ValueError)
    case _ => Err(TypeError)
  }

  /** `int(d[key])`: KeyError for a missing key. */
  function Field(ms: seq<Member>, key: string): (r: Result<int>)
    ensures !Has(ms, key) ==> r == Err(KeyError)
  {
    match Find(ms, key)
    case None => Err(KeyError)
    case Some(v) => IntOf(v)
  }

  /** A dictionary the UUID constructor takes up: one with both low words, or with both
      halves. */
  predicate UuidShaped(ms: seq<Member>)
  {
    (Has(ms, "uuid_w0") && Has(ms, "uuid_w1")) || (Has(ms, "upper") && Has(ms, "lower"))
  }

  /** `NumbersUUID(d)` on a dictionary. The fields are read highest first, so a missing
      one raises KeyError and an unreadable one ValueError or TypeError; a negative field
      makes the combined integer negative, which `UUID` refuses with ValueError. The rest is
      the constructor of Uuid. */
  function DictUuid(ms: seq<Member>): (r: Result<Uuid.U128>)
    ensures r == Err(UnsupportedError) <==> !UuidShaped(ms)
  {
    if Has(ms, "uuid_w0") && Has(ms, "uuid_w1") then
      var w3 :- Field(ms, "uuid_w3");
      var w2 :- Field(ms, "uuid_w2");
      var w1 :- Field(ms, "uuid_w1");
      var w0 :- Field(ms, "uuid_w0");
      if w3 < 0 || w2 < 0 || w1 < 0 || w0 < 0 then Err(ValueError)
      else Uuid.NumbersUuid(Uuid.DictArg(map["uuid_w3" := w3, "uuid_w2" := w2, "uuid_w1" := w1, "uuid_w0" := w0]), 0)
    else if Has(ms, "upper") && Has(ms, "lower") then
      var upper :- Field(ms, "upper");
      var lower :- Field(ms, "lower");
      if upper < 0 || lower < 0 then Err(ValueError)
      else Uuid.NumbersUuid(Uuid.DictArg(map["upper" := upper, "lower" := lower]), 0)
    else Err(UnsupportedError)
  }

  // ---------------------------------------------------------------------------------------
  // `prettify_uuids`.

  /** One value inside a dictionary or list: a dictionary the UUID constructor accepts
      becomes the UUID's string; one it refuses as unsupported is walked in turn; a list is
      walked; other errors of the constructor propagate. */
  function PrettifyValue(v: Json): (r: Result<Json>)
    ensures r.Ok? && v.JObj? && !UuidShaped(v.members) ==> r.value.JObj? && Keys(r.value.members) == Keys(v.members)
    decreases v
  {
    match v
    case JObj(ms) =>
      var u := DictUuid(ms);
      if u.Ok? then Ok(JStr(Uuid.Str(u.value)))
      else if u.error == UnsupportedError then
        var out :- PrettifyMembers(ms);
        Ok(JObj(out))
      else Err(u.error)
    case JList(xs) =>
      var out :- PrettifyItems(xs);
      Ok(JList(out))
    case _ => Ok(v)
  }

  /** The loop over a dictionary's items; the keys stay as they are. */
  function PrettifyMembers(ms: seq<Member>): (r: Result<seq<Member>>)
    ensures r.Ok? ==> Keys(r.value) == Keys(ms)
    decreases ms
  {
    if ms == [] then Ok([])
    else
      var v :- PrettifyValue(ms[0].value);
      var rest :- PrettifyMembers(ms[1..]);
      Ok([Member(ms[0].key, v)] + rest)
  }

  /** The loop over a list's items. */
  function PrettifyItems(xs: seq<Json>): (r: Result<seq<Json>>)
    ensures r.Ok? ==> |r.value| == |xs|
    decreases xs
  {
    if xs == [] then Ok([])
    else
      var v :- PrettifyValue(xs[0]);
      var rest :- PrettifyItems(xs[1..]);
      Ok([v] + rest)
  }

  /** `prettify_uuids(obj)` on the dictionary or list `to_dict` returns (the object itself
      is never replaced). A string has no dictionary inside it; any other value cannot be
      walked and raises TypeError. */
  function PrettifyUuids(obj: Json): (r: Result<Json>)
    ensures obj.JNull? || obj.JBool? || obj.JNum? ==> r == Err(TypeError)
    ensures r.Ok? && obj.JObj? ==> r.value.JObj? && Keys(r.value.members) == Keys(obj.members)
  {
    match obj
    case JObj(ms) =>
      var out :- PrettifyMembers(ms);
      Ok(JObj(out))
    case JList(xs) =>
      var out :- PrettifyItems(xs);
      Ok(JList(out))
    case JStr(_) => Ok(obj)
    case _ => Err(TypeError)
  }

  /** Keys decide `UuidShaped`. */
  lemma SameKeysSameShape(a: seq<Member>, b: seq<Member>)
    requires Keys(a) == Keys(b)
    ensures UuidShaped(a) <==> UuidShaped(b)
  {
    forall key | Has(a, key)
      ensures Has(b, key)
    {
      var i :| 0 <= i < |a| && a[i].key == key;
      assert Keys(a)[i] == Keys(b)[i];
    }
    forall key | Has(b, key)
      ensures Has(a, key)
    {
      var i :| 0 <= i < |b| && b[i].key == key;
      assert Keys(a)[i] == Keys(b)[i];
    }
  }

  /** A value holding no dictionary the UUID constructor would take up, at any depth. */
  predicate CleanValue(v: Json)
    decreases v
  {
    match v
    case JObj(ms) => !UuidShaped(ms) && CleanMembers(ms)
    case JList(xs) => CleanItems(xs)
    case _ => true
  }

  predicate CleanMembers(ms: seq<Member>)
    decreases ms
  {
    ms == [] || (CleanValue(ms[0].value) && CleanMembers(ms[1..]))
  }

  predicate CleanItems(xs: seq<Json>)
    decreases xs
  {
    xs == [] || (CleanValue(xs[0]) && CleanItems(xs[1..]))
  }

  /** The contents of a top-level object hold no UUID dictionary. */
  predicate Clean(obj: Json)
  {
    match obj
    case JObj(ms) => CleanMembers(ms)
    case JList(xs) => CleanItems(xs)
    case _ => true
  }

  lemma {:induction false} CleanValueUnchanged(v: Json)
    requires CleanValue(v)
    ensures PrettifyValue(v) == Ok(v)
    decreases v
  {
    match v
    case JObj(ms) =>
      CleanMembersUnchanged(ms);
    case JList(xs) =>
      CleanItemsUnchanged(xs);
    case _ =>
  }

  lemma {:induction false} CleanMembersUnchanged(ms: seq<Member>)
    requires CleanMembers(ms)
    ensures PrettifyMembers(ms) == Ok(ms)
    decreases ms
  {
    if ms != [] {
      CleanValueUnchanged(ms[0].value);
      CleanMembersUnchanged(ms[1..]);
      assert ms == [Member(ms[0].key, ms[0].value)] + ms[1..];
    }
  }

  lemma {:induction false} CleanItemsUnchanged(xs: seq<Json>)
    requires CleanItems(xs)
    ensures PrettifyItems(xs) == Ok(xs)
    decreases xs
  {
    if xs != [] {
      CleanValueUnchanged(xs[0]);
      CleanItemsUnchanged(xs[1..]);
      assert xs == [xs[0]] + xs[1..];
    }
  }

  /** A structure with no UUID dictionary in it is left as it was. */
  lemma NoUuidUnchanged(obj: Json)
    requires Clean(obj) && (obj.JObj? || obj.JList? || obj.JStr?)
    ensures PrettifyUuids(obj) == Ok(obj)
  {
    match obj
    case JObj(ms) => CleanMembersUnchanged(ms);
    case JList(xs) => CleanItemsUnchanged(xs);
    case JStr(_) =>
  }

  lemma {:induction false} PrettifiedValueClean(v: Json)
    requires PrettifyValue(v).Ok?
    ensures CleanValue(PrettifyValue(v).value)
    decreases v
  {
    match v
    case JObj(ms) =>
      if DictUuid(ms).Err? {
        PrettifiedMembersClean(ms);
        SameKeysSameShape(ms, PrettifyMembers(ms).value);
      }
    case JList(xs) =>
      PrettifiedItemsClean(xs);
    case _ =>
  }

  lemma {:induction false} PrettifiedMembersClean(ms: seq<Member>)
    requires PrettifyMembers(ms).Ok?
    ensures CleanMembers(PrettifyMembers(ms).value)
    decreases ms
  {
    if ms != [] {
      PrettifiedValueClean(ms[0].value);
      PrettifiedMembersClean(ms[1..]);
      var r := PrettifyMembers(ms).value;
      assert r[0].value == PrettifyValue(ms[0].value).value;
      assert r[1..] == PrettifyMembers(ms[1..]).value;
    }
  }

  lemma {:induction false} PrettifiedItemsClean(xs: seq<Json>)
    requires PrettifyItems(xs).Ok?
    ensures CleanItems(PrettifyItems(xs).value)
    decreases xs
  {
    if xs != [] {
      PrettifiedValueClean(xs[0]);
      PrettifiedItemsClean(xs[1..]);
      var r := PrettifyItems(xs).value;
      assert r[0] == PrettifyValue(xs[0]).value;
      assert r[1..] == PrettifyItems(xs[1..]).value;
    }
  }

  /** Every UUID dictionary is gone once the walk succeeds, so a second walk changes
      nothing. */
  lemma PrettifyIdempotent(obj: Json)
    requires PrettifyUuids(obj).Ok?
    ensures Clean(PrettifyUuids(obj).value)
    ensures PrettifyUuids(PrettifyUuids(obj).value) == PrettifyUuids(obj)
  {
    match obj {
      case JObj(ms) => PrettifiedMembersClean(ms);
      case JList(xs) => PrettifiedItemsClean(xs);
      case _ =>
    }
    var r := PrettifyUuids(obj).value;
    NoUuidUnchanged(r);
  }

  /** A list of lists of numbers comes back unchanged. */
  lemma NumberListsUnchanged()
    ensures var obj := JList([JList([JNum(1), JNum(2), JNum(3)]), JList([JNum(4), JNum(5), JNum(6)])]);
            PrettifyUuids(obj) == Ok(obj)
  {
    var obj := JList([JList([JNum(1), JNum(2), JNum(3)]), JList([JNum(4), JNum(5), JNum(6)])]);
    assert CleanItems([JNum(6)]) && CleanItems([JNum(3)]);
    NoUuidUnchanged(obj);
  }

  /** A value holding the two halves of a UUID becomes its string form. */
  lemma HalvesBecomeString(key: string, upper: Uuid.U64, lower: Uuid.U64)
    ensures var ids := JObj([Member("upper", JNum(upper)), Member("lower", JNum(lower))]);
            PrettifyUuids(JObj([Member(key, ids)])) == Ok(JObj([Member(key, JStr(Uuid.Str(upper * Uuid.Two64 + lower)))]))
  {
    var ms := [Member("upper", JNum(upper)), Member("lower", JNum(lower))];
    assert ms[0].key == "upper" && ms[1].key == "lower";
    assert Field(ms, "upper") == Ok(upper as int);
    assert "upper"[0] != "lower"[0];
    assert ms[1..] == [Member("lower", JNum(lower))];
    assert Find(ms, "lower") == Find(ms[1..], "lower") == Some(JNum(lower));
    assert !Has(ms, "uuid_w0") by {
      forall i | 0 <= i < |ms|
        ensures ms[i].key != "uuid_w0"
      {
        assert ms[i].key[0] != 'u' || ms[i].key[1] != 'u';
      }
    }
    Uuid.FromHalvesValue(upper, lower);
    assert DictUuid(ms) == Ok(upper * Uuid.Two64 + lower);
    var ids := JObj(ms);
    var str := JStr(Uuid.Str(upper * Uuid.Two64 + lower));
    assert PrettifyValue(ids) == Ok(str);
    var top := [Member(key, ids)];
    assert top[0].value == ids && top[1..] == [];
    assert PrettifyMembers(top) == Ok([Member(key, str)] + []);
    assert [Member(key, str)] + [] == [Member(key, str)];
    assert PrettifyUuids(JObj(top)) == Ok(JObj([Member(key, str)]));
  }

  // ---------------------------------------------------------------------------------------
  // `allowed_format` and `allowed_version`.

  /** The versions of Numbers that documents may come from. */
  const SupportedNumbersVersions: seq<string> := [
    "10.3", "11.0", "11.1", "11.2", "12.0", "12.1", "12.2", "13.0", "13.1", "13.2",
    "14.0", "14.1", "14.2", "14.3", "14.4"
  ]

  /** `allowed_format`: only the ".numbers" extension. */
  predicate AllowedFormat(extension: string)
  {
    extension == ".numbers"
  }

  /** The number of digits `s` starts with: what a greedy `\d+` takes. */
  function DigitRun(s: string): (n: nat)
    ensures n <= |s|
  {
    if s != [] && IsDigit(s[0]) then 1 + DigitRun(s[1..]) else 0
  }

  /** The run is all digits and stops at the first character that is not one. */
  lemma {:induction false} DigitRunDigits(s: string)
    ensures var n := DigitRun(s); AllDigits(s[..n]) && (n < |s| ==> !IsDigit(s[n]))
    decreases |s|
  {
    if s != [] && IsDigit(s[0]) {
      DigitRunDigits(s[1..]);
      var n := DigitRun(s);
      assert s[..n] == [s[0]] + s[1..][..n - 1];
    }
  }

  /** A match of `(\d+)\.(\d+)\.\d+` at the start of `s`: the length of the part kept
      (group 1, ".", group 2) and of the whole match. */
  function MatchAt(s: string): (m: Option<(nat, nat)>)
    ensures m.Some? ==> m.value.0 < m.value.1 <= |s|
  {
    MatchFirst(s, DigitRun(s))
  }

  /** The rest of the match once group 1 has taken `d1` digits. */
  function MatchFirst(s: string, d1: nat): (m: Option<(nat, nat)>)
    requires d1 <= |s|
    ensures m.Some? ==> m.value.0 < m.value.1 <= |s|
  {
    if d1 == 0 || d1 == |s| || s[d1] != '.' then None
    else MatchSecond(s, d1, DigitRun(s[d1 + 1..]))
  }

  /** The rest of the match once group 2 has taken `d2` digits after the first dot. */
  function MatchSecond(s: string, d1: nat, d2: nat): (m: Option<(nat, nat)>)
    requires d1 + 1 + d2 <= |s|
    ensures m.Some? ==> m.value.0 < m.value.1 <= |s|
  {
    if d2 == 0 || d1 + 1 + d2 == |s| || s[d1 + 1 + d2] != '.' then None
    else
      var d3 := DigitRun(s[d1 + d2 + 2..]);
      if d3 == 0 then None else Some((d1 + 1 + d2, d1 + d2 + 2 + d3))
  }

  /** `re.sub(r"(\d+)\.(\d+)\.\d+", r"\1.\2", s)`: every match, leftmost first and not
      overlapping, loses its last dot and digits. */
  function Truncated(s: string): (r: string)
    decreases |s|
  {
    if s == [] then []
    else
      var r := Replaced(s);
      r.0 + Truncated(s[r.1..])
  }

  /** One step of the substitution at the start of a non-empty `s`: what it writes and how
      much of `s` it consumes (a whole match, or one character that starts none). */
  function Replaced(s: string): (r: (string, nat))
    requires s != []
    ensures 0 < r.1 <= |s|
  {
    match MatchAt(s)
    case Some((keep, len)) => (s[..keep], len)
    case None => ([s[0]], 1)
  }

  /** `allowed_version` */
  predicate AllowedVersion(version: string)
  {
    Truncated(version) in SupportedNumbersVersions
  }

  lemma {:induction false} DigitRunOf(d: string, rest: string)
    requires AllDigits(d) && (rest == [] || !IsDigit(rest[0]))
    ensures DigitRun(d + rest) == |d|
    decreases |d|
  {
    var s := d + rest;
    if d == [] {
      assert s == rest;
    } else {
      var tail := d[1..];
      assert s[0] == d[0] && s[1..] == tail + rest;
      DigitRunOf(tail, rest);
    }
  }

  /** `(\d+)\.(\d+)\.\d+` matches all of "X.Y.Z", keeping "X.Y". */
  lemma MatchThreeParts(x: string, y: string, z: string)
    requires x != [] && y != [] && z != [] && AllDigits(x) && AllDigits(y) && AllDigits(z)
    ensures var s := x + "." + y + "." + z; MatchAt(s) == Some((|x| + 1 + |y|, |s|))
  {
    FirstPart(x, y, z);
    SecondPart(x, y, z);
    ThirdPart(x, y, z);
    var s := x + "." + y + "." + z;
    assert |s| == |x| + |y| + 2 + |z|;
    MatchAtParts(s, |x|, |y|, |z|);
  }

  lemma FirstPart(x: string, y: string, z: string)
    requires AllDigits(x)
    ensures var s := x + "." + y + "." + z; |x| < |s| && DigitRun(s) == |x| && s[|x|] == '.'
  {
    var s := x + "." + y + "." + z;
    assert s == x + ("." + (y + "." + z));
    DigitRunOf(x, "." + (y + "." + z));
  }

  lemma SecondPart(x: string, y: string, z: string)
    requires AllDigits(y)
    ensures var s := x + "." + y + "." + z;
            |x| + 1 + |y| < |s| && DigitRun(s[|x| + 1..]) == |y| && s[|x| + 1 + |y|] == '.'
  {
    var s := x + "." + y + "." + z;
    assert s[|x| + 1..] == y + ("." + z);
    DigitRunOf(y, "." + z);
  }

  lemma ThirdPart(x: string, y: string, z: string)
    requires AllDigits(z)
    ensures var s := x + "." + y + "." + z; DigitRun(s[|x| + |y| + 2..]) == |z|
  {
    var s := x + "." + y + "." + z;
    assert s[|x| + |y| + 2..] == z + [];
    DigitRunOf(z, []);
  }

  lemma MatchAtParts(s: string, a: nat, b: nat, c: nat)
    requires 0 < a < |s| && DigitRun(s) == a && s[a] == '.'
    requires 0 < b && a + 1 + b < |s| && DigitRun(s[a + 1..]) == b && s[a + 1 + b] == '.'
    requires 0 < c && DigitRun(s[a + b + 2..]) == c
    ensures MatchAt(s) == Some((a + 1 + b, a + b + 2 + c))
  {
    assert MatchAt(s) == MatchFirst(s, a);
    assert MatchFirst(s, a) == MatchSecond(s, a, b);
  }

  /** A three-part version keeps its first two parts. */
  lemma TruncatedThreeParts(x: string, y: string, z: string)
    requires x != [] && y != [] && z != [] && AllDigits(x) && AllDigits(y) && AllDigits(z)
    ensures Truncated(x + "." + y + "." + z) == x + "." + y
  {
    var s := x + "." + y + "." + z;
    var keep := |x| + 1 + |y|;
    MatchThreeParts(x, y, z);
    TruncatedWhole(s, keep);
    assert s[..keep] == x + "." + y;
  }

  /** A match that runs to the end of the string leaves only what it keeps. */
  lemma TruncatedWhole(s: string, keep: nat)
    requires MatchAt(s) == Some((keep, |s|))
    ensures Truncated(s) == s[..keep]
  {
    ReplacedWhole(s, keep);
    TruncatedStep(s, s[..keep], |s|);
  }

  lemma ReplacedWhole(s: string, keep: nat)
    requires MatchAt(s) == Some((keep, |s|))
    ensures s != [] && Replaced(s) == (s[..keep], |s|)
  {
  }

  /** `Truncated` writes what the first step writes, then goes on after it. */
  lemma TruncatedStep(s: string, kept: string, len: nat)
    requires s != [] && Replaced(s) == (kept, len)
    ensures Truncated(s) == kept + Truncated(s[len..])
  {
  }

  lemma {:induction false} TruncatedNoMatch(s: string)
    requires forall i :: 0 <= i < |s| ==> MatchAt(s[i..]).None?
    ensures Truncated(s) == s
    decreases |s|
  {
    if s != [] {
      assert MatchAt(s[0..]).None? && s[0..] == s;
      forall i | 0 <= i < |s[1..]|
        ensures MatchAt(s[1..][i..]).None?
      {
        assert s[1..][i..] == s[i + 1..];
      }
      TruncatedNoMatch(s[1..]);
    }
  }

  /** A two-part version is left as it is. */
  lemma TruncatedTwoParts(x: string, y: string)
    requires AllDigits(x) && AllDigits(y)
    ensures Truncated(x + "." + y) == x + "." + y
  {
    var s := x + "." + y;
    forall i | 0 <= i < |s|
      ensures MatchAt(s[i..]).None?
    {
      NoMatchInTwoParts(x, y, i);
    }
    TruncatedNoMatch(s);
  }

  /** No suffix of "X.Y" holds two dots, so none starts a match. */
  lemma NoMatchInTwoParts(x: string, y: string, i: nat)
    requires AllDigits(x) && AllDigits(y) && i < |x + "." + y|
    ensures MatchAt((x + "." + y)[i..]).None?
  {
    var s := x + "." + y;
    var t := s[i..];
    if i < |x| {
      var u := x[i..];
      assert t == u + ("." + y);
      DigitRunOf(u, "." + y);
      assert t[|u|] == '.';
      assert t[|u| + 1..] == y + [];
      DigitRunOf(y, []);
      assert MatchAt(t) == MatchFirst(t, |u|);
      assert MatchFirst(t, |u|) == MatchSecond(t, |u|, |y|);
    } else if i == |x| {
      assert t[0] == '.';
      assert DigitRun(t) == 0;
    } else {
      var v := y[i - |x| - 1..];
      assert t == v + [];
      DigitRunOf(v, []);
      assert MatchAt(t) == MatchFirst(t, |v|);
    }
  }

  /** A version "X.Y.Z" is allowed exactly when "X.Y" is supported, and "X.Y" when it is
      supported itself. */
  lemma AllowedVersionParts(x: string, y: string, z: string)
    requires x != [] && y != [] && z != [] && AllDigits(x) && AllDigits(y) && AllDigits(z)
    ensures AllowedVersion(x + "." + y + "." + z) <==> x + "." + y in SupportedNumbersVersions
    ensures AllowedVersion(x + "." + y) <==> x + "." + y in SupportedNumbersVersions
  {
    TruncatedThreeParts(x, y, z);
    TruncatedTwoParts(x, y);
  }

  /** Numbers 14.1.2 is allowed. */
  lemma AllowedVersionExample()
    ensures AllowedVersion("14.1.2")
  {
    var x, y, z := "14", "1", "2";
    FourteenOneTwo(x, y, z);
    AllowedVersionParts(x, y, z);
  }

  lemma FourteenOneTwo(x: string, y: string, z: string)
    requires x == "14" && y == "1" && z == "2"
    ensures AllDigits(x) && AllDigits(y) && AllDigits(z)
    ensures x + "." + y + "." + z == "14.1.2"
    ensures x + "." + y in SupportedNumbersVersions
  {
    assert x + "." + y == SupportedNumbersVersions[11];
  }

  /** Numbers 9.3 is not. */
  lemma RefusedVersionExample()
    ensures !AllowedVersion("9.3")
  {
    var v := "9.3";
    assert v == "9" + "." + "3";
    TruncatedTwoParts("9", "3");
    SupportedVersionsShape();
    assert v[0] != '1';
  }

  /** Every supported version is a four-character "1X.Y". */
  lemma SupportedVersionsShape()
    ensures forall v :: v in SupportedNumbersVersions ==> |v| == 4 && v[0] == '1' && v[2] == '.'
  {
    forall i | 0 <= i < |SupportedNumbersVersions|
      ensures var v := SupportedNumbersVersions[i]; |v| == 4 && v[0] == '1' && v[2] == '.'
    {
    }
  }
}
