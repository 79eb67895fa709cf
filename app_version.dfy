/** Numbers application versions (numbers_parser/macos_app_version.py): a dotted short version
    string such as "10.3.9" read as a list of integers, with the bundle and build version
    strings beside it. */
module AppVersion {
  import opened Outcomes
  import opened Decimal
  import opened Text

  datatype MacOsAppVersion = MacOsAppVersion(
    shortVersionString: string,
    shortVersionTuple: seq<nat>,
    bundleVersion: string,
    buildVersion: string)

  /** The right-hand side of a comparison: another version, or a value of some other type. */
  datatype Operand = Version(v: MacOsAppVersion) | OtherValue

  /** `int(x)` for one piece of the short version string; only plain ASCII digit strings are
      read, anything else is a ValueError. */
  function ParseInt(x: string): (r: Result<nat>)
    ensures r.Ok? <==> |x| > 0 && AllDigits(x)
    ensures r.Ok? ==> DecimalString(r.value) == x || x[0] == '0'
  {
    if |x| > 0 && AllDigits(x) then
      if x[0] != '0' || |x| == 1 then
        DecimalStringOfDigitsValue(x);
        Ok(DigitsValue(x))
      else Ok(DigitsValue(x))
    else Err(ValueError)
  }

  /** Every piece reads as a number. */
  predicate AllNumbers(parts: seq<string>)
  {
    forall k :: 0 <= k < |parts| ==> ParseInt(parts[k]).Ok?
  }

  /** `[int(x) for x in parts]`, failing at the first piece that is not a number. */
  function ParseParts(parts: seq<string>): (r: Result<seq<nat>>)
    ensures r.Ok? <==> AllNumbers(parts)
    ensures r.Ok? ==> (|r.value| == |parts|
      && forall k :: 0 <= k < |parts| ==> r.value[k] == ParseInt(parts[k]).value)
    ensures r.Err? ==> r.error == ValueError
  {
    if parts == [] then Ok([])
    else
      var head :- ParseInt(parts[0]);
      var tail :- ParseParts(parts[1..]);
      assert forall k :: 1 <= k < |parts| ==> parts[k] == parts[1..][k - 1];
      Ok([head] + tail)
  }

  /** The constructor: the short version string split on "." and each piece read as an int. */
  function NewVersion(short: string, bundle: string, build: string): (r: Result<MacOsAppVersion>)
    ensures r.Ok? <==> AllNumbers(Split(short, '.'))
    ensures r.Ok? ==> (r.value.shortVersionString == short && |r.value.shortVersionTuple| >= 1
      && |r.value.shortVersionTuple| == |Split(short, '.')|
      && r.value.bundleVersion == bundle && r.value.buildVersion == build)
    ensures r.Err? ==> r.error == ValueError
  {
    var parts := Split(short, '.');
    var t := ParseParts(parts);
    if t.Err? then Err(ValueError)
    else Ok(MacOsAppVersion(short, t.value, bundle, build))
  }

  function Pow10(n: nat): (r: nat)
    ensures r >= 1
  {
    if n == 0 then 1 else 10 * Pow10(n - 1)
  }

  /** The sum, over the tuple from position i on, of 10^(n - j) times the j-th number, n being
      the tuple's length. */
  function WeightedSum(t: seq<nat>, i: nat): nat
    requires i <= |t|
    decreases |t| - i
  {
    if i == |t| then 0 else Pow10(|t| - i) * t[i] + WeightedSum(t, i + 1)
  }

  /** `short_version_comparator`: Σ 10^(n - i)·vᵢ over the tuple. */
  function Comparator(t: seq<nat>): nat
  {
    WeightedSum(t, 0)
  }

  /** The comparator reads the tuple like decimal digits, one place to the left: appending a
      number multiplies what is there by ten and adds ten times the new number. */
  lemma {:induction false} ComparatorAppend(t: seq<nat>, v: nat)
    ensures Comparator(t + [v]) == 10 * (Comparator(t) + v)
  {
    WeightedSumAppend(t, v, 0);
  }

  lemma {:induction false} WeightedSumAppend(t: seq<nat>, v: nat, i: nat)
    requires i <= |t|
    ensures WeightedSum(t + [v], i) == 10 * (WeightedSum(t, i) + (if i <= |t| then v else 0))
    decreases |t| - i
  {
    var u := t + [v];
    if i == |t| {
      assert u[i] == v;
      assert WeightedSum(u, i + 1) == 0;
    } else {
      assert u[i] == t[i];
      WeightedSumAppend(t, v, i + 1);
      assert Pow10(|u| - i) == 10 * Pow10(|t| - i);
    }
  }

  /** For tuples of the same length whose numbers are single digits, the comparator orders
      them as their digit strings read left to right. */
  lemma {:induction false} ComparatorOrdersDigits(a: seq<nat>, b: seq<nat>, k: nat)
    requires |a| == |b| && k < |a|
    requires forall j :: 0 <= j < |a| ==> a[j] < 10 && b[j] < 10
    requires a[..k] == b[..k] && a[k] < b[k]
    ensures Comparator(a) < Comparator(b)
  {
    WeightedSumSplit(a, b, k, 0);
  }

  /** The tail of a single-digit tuple weighs less than the place before it. */
  lemma {:induction false} WeightedSumBound(t: seq<nat>, i: nat)
    requires i <= |t| && forall j :: 0 <= j < |t| ==> t[j] < 10
    ensures WeightedSum(t, i) < 10 * Pow10(|t| - i)
    decreases |t| - i
  {
    if i < |t| {
      WeightedSumBound(t, i + 1);
      var p := Pow10(|t| - i);
      assert p == 10 * Pow10(|t| - (i + 1));
      MulMono(p, t[i], 9);
    }
  }

  lemma {:induction false} WeightedSumSplit(a: seq<nat>, b: seq<nat>, k: nat, i: nat)
    requires |a| == |b| && i <= k < |a|
    requires forall j :: 0 <= j < |a| ==> a[j] < 10 && b[j] < 10
    requires a[..k] == b[..k] && a[k] < b[k]
    ensures WeightedSum(a, i) < WeightedSum(b, i)
    decreases k - i
  {
    if i < k {
      assert a[i] == a[..k][i] == b[..k][i] == b[i];
      WeightedSumSplit(a, b, k, i + 1);
    } else {
      WeightedSumFirstDifference(a, b, k);
    }
  }

  lemma WeightedSumFirstDifference(a: seq<nat>, b: seq<nat>, k: nat)
    requires |a| == |b| && k < |a|
    requires forall j :: 0 <= j < |a| ==> a[j] < 10 && b[j] < 10
    requires a[k] < b[k]
    ensures WeightedSum(a, k) < WeightedSum(b, k)
  {
    var p := Pow10(|a| - k);
    WeightedSumBound(a, k + 1);
    assert p == 10 * Pow10(|a| - (k + 1));
    PlaceValue(p, a[k], b[k], WeightedSum(a, k + 1), WeightedSum(b, k + 1));
  }

  /** A larger digit in a place outweighs anything smaller than the place below it. */
  lemma PlaceValue(p: nat, x: nat, y: nat, u: nat, w: nat)
    requires x < y && u < p
    ensures p * x + u < p * y + w
  {
    MulMono(p, x + 1, y);
  }

  lemma MulMono(p: nat, x: nat, y: nat)
    requires x <= y
    ensures p * x <= p * y && p * (x + 1) == p * x + p
  {
  }

  /** `__lt__`: true when any one of the comparator, the bundle version or the build version
      is smaller; a TypeError for an operand that is not a version. */
  function Less(self: MacOsAppVersion, value: Operand): (r: Result<bool>)
    ensures value.OtherValue? <==> r == Err(TypeError)
    ensures value.Version? ==> (r.Ok? && (r.value <==>
      Comparator(self.shortVersionTuple) < Comparator(value.v.shortVersionTuple)
      || StrLess(self.bundleVersion, value.v.bundleVersion)
      || StrLess(self.buildVersion, value.v.buildVersion)))
  {
    if value.OtherValue? then Err(TypeError)
    else
      Ok(Comparator(self.shortVersionTuple) < Comparator(value.v.shortVersionTuple)
         || StrLess(self.bundleVersion, value.v.bundleVersion)
         || StrLess(self.buildVersion, value.v.buildVersion))
  }

  /** `__le__`: the same disjunction with `<=`. */
  function LessEq(self: MacOsAppVersion, value: Operand): (r: Result<bool>)
    ensures value.OtherValue? <==> r == Err(TypeError)
    ensures value.Version? ==> (r.Ok? && (r.value <==>
      Comparator(self.shortVersionTuple) <= Comparator(value.v.shortVersionTuple)
      || StrLessEq(self.bundleVersion, value.v.bundleVersion)
      || StrLessEq(self.buildVersion, value.v.buildVersion)))
  {
    if value.OtherValue? then Err(TypeError)
    else
      Ok(Comparator(self.shortVersionTuple) <= Comparator(value.v.shortVersionTuple)
         || StrLessEq(self.bundleVersion, value.v.bundleVersion)
         || StrLessEq(self.buildVersion, value.v.buildVersion))
  }

  /** `<` implies `<=`, no version is below itself and every version is at most itself. */
  lemma LessImpliesLessEq(a: MacOsAppVersion, b: MacOsAppVersion)
    ensures Less(a, Version(b)) == Ok(true) ==> LessEq(a, Version(b)) == Ok(true)
    ensures Less(a, Version(a)) == Ok(false)
    ensures LessEq(a, Version(a)) == Ok(true)
  {
    StrLessStrict(a.bundleVersion, a.bundleVersion);
    StrLessStrict(a.buildVersion, a.buildVersion);
  }

  /** Because `<` is a disjunction and not a lexicographic order, two versions can each be
      less than the other: 1.1 (bundle "2", build "1") and 1.2 (bundle "1", build "2"). */
  lemma LessNotAntisymmetric()
    ensures var a := MacOsAppVersion("1.1", [1, 1], "2", "1");
      var b := MacOsAppVersion("1.2", [1, 2], "1", "2");
      Less(a, Version(b)) == Ok(true) && Less(b, Version(a)) == Ok(true)
  {
    assert Comparator([1, 1]) == 110;
    assert Comparator([1, 2]) == 120;
    assert StrLess("1", "2");
  }

  /** `major`: the first number, always present. */
  function Major(self: MacOsAppVersion): (r: Result<nat>)
    ensures |self.shortVersionTuple| >= 1 <==> r.Ok?
    ensures r.Ok? ==> r.value == self.shortVersionTuple[0]
  {
    if |self.shortVersionTuple| >= 1 then Ok(self.shortVersionTuple[0]) else Err(IndexError)
  }

  /** `minor`: the second number, an IndexError for a version with a single number. */
  function Minor(self: MacOsAppVersion): (r: Result<nat>)
    ensures |self.shortVersionTuple| >= 2 <==> r.Ok?
    ensures r.Ok? ==> r.value == self.shortVersionTuple[1]
  {
    if |self.shortVersionTuple| >= 2 then Ok(self.shortVersionTuple[1]) else Err(IndexError)
  }

  /** `__str__`: "short (bundle, build)". */
  function Str(self: MacOsAppVersion): (s: string)
    ensures |s| == |self.shortVersionString| + |self.bundleVersion| + |self.buildVersion| + 5
  {
    self.shortVersionString + " (" + self.bundleVersion + ", " + self.buildVersion + ")"
  }

  /** "10.3.9" reads as [10, 3, 9], major 10, minor 3, comparator 10·10³ + 3·10² + 9·10. */
  lemma Example()
    ensures NewVersion("10.3.9", "7029.9.8", "1A22").Ok?
    ensures var v := NewVersion("10.3.9", "7029.9.8", "1A22").value;
      v.shortVersionTuple == [10, 3, 9] && Major(v) == Ok(10) && Minor(v) == Ok(3)
      && Comparator(v.shortVersionTuple) == 10390
  {
    ExamplePieces();
    ExampleNumbers();
    NewVersionOf("10.3.9", "7029.9.8", "1A22", ["10", "3", "9"], [10, 3, 9]);
    ExampleComparator();
  }

  lemma ExampleComparator()
    ensures Comparator([10, 3, 9]) == 10390
  {
  }

  /** The constructor on a short version string whose pieces and numbers are known. */
  lemma NewVersionOf(short: string, bundle: string, build: string, parts: seq<string>, t: seq<nat>)
    requires Split(short, '.') == parts && ParseParts(parts) == Ok(t)
    ensures NewVersion(short, bundle, build) == Ok(MacOsAppVersion(short, t, bundle, build))
  {
  }

  lemma ExamplePieces()
    ensures Split("10.3.9", '.') == ["10", "3", "9"]
  {
    assert Join(["10", "3", "9"], '.') == "10.3.9";
    SplitJoin(["10", "3", "9"], '.');
  }

  lemma ExampleNumbers()
    ensures ParseParts(["10", "3", "9"]) == Ok([10, 3, 9])
  {
    assert DigitsValue("10") == 10 by { assert "10"[..1] == "1"; assert "1"[..0] == ""; }
    assert DigitsValue("3") == 3 by { assert "3"[..0] == ""; }
    assert DigitsValue("9") == 9 by { assert "9"[..0] == ""; }
    assert ParseInt("9") == Ok(9) && ParseInt("3") == Ok(3) && ParseInt("10") == Ok(10);
    var p := ["10", "3", "9"];
    assert AllNumbers(p);
    assert ParseParts(p).value == [10, 3, 9];
  }

  /** A piece that is not a number makes the constructor fail with ValueError. */
  lemma NotANumber()
    ensures NewVersion("10.x", "", "") == Err(ValueError)
  {
    assert Join(["10", "x"], '.') == "10.x";
    SplitJoin(["10", "x"], '.');
    assert !ParseInt("x").Ok?;
  }
}
