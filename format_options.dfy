/** The choices a cell's formatting is built from: the duration units picked for a value, the
    labels written after each duration unit, and the checks made when a `Formatting`, an
    `Alignment` or a colour is built (src/numbers_parser/cell.py,
    src/numbers_parser/cell_storage.py). */
module FormatOptions {
  import opened Outcomes
  import Text
  import CellFormat

  // ---- Duration units ----

  /** `DurationUnits`: a smaller number is a coarser unit, and each unit is half the next
      coarser one. */
  const NoUnit: int := 0
  const Week: int := 1
  const Day: int := 2
  const Hour: int := 4
  const Minute: int := 8
  const Second: int := 16
  const Millisecond: int := 32

  const SecondsInHour: int := 60 * 60
  const SecondsInDay: int := SecondsInHour * 24
  const SecondsInWeek: int := SecondsInDay * 7

  predicate IsUnit(u: int)
  {
    u == Week || u == Day || u == Hour || u == Minute || u == Second || u == Millisecond
  }

  /** The length of a unit in seconds. */
  function UnitSeconds(u: int): real
    requires IsUnit(u)
  {
    if u == Week then SecondsInWeek as real
    else if u == Day then SecondsInDay as real
    else if u == Hour then SecondsInHour as real
    else if u == Minute then 60.0
    else if u == Second then 1.0
    else 0.001
  }

  function Max(a: int, b: int): int { if a < b then b else a }

  /** The next coarser unit. */
  function Coarser(u: int): int
    requires IsUnit(u) && u != Week
  {
    if u == Day then Week
    else if u == Hour then Day
    else if u == Minute then Hour
    else if u == Second then Minute
    else Second
  }

  /** The largest unit `auto_units` picks for a non-zero value: the coarsest unit that fits in
      it, or milliseconds below one second. */
  function LargestUnit(value: real): (u: int)
    ensures IsUnit(u)
    ensures value >= 1.0 ==> UnitSeconds(u) <= value && (u == Week || value < UnitSeconds(Coarser(u)))
    ensures value < 1.0 ==> u == Millisecond
  {
    if value >= SecondsInWeek as real then Week
    else if value >= SecondsInDay as real then Day
    else if value >= SecondsInHour as real then Hour
    else if value >= 60.0 then Minute
    else if value >= 1.0 then Second
    else Millisecond
  }

  /** The smallest unit `auto_units` picks for a non-zero value before it is raised to the
      largest: milliseconds for a fraction, else the first unit from seconds up that leaves a
      remainder, else the format's own. */
  function SmallestUnit(value: real, smallest: int): (u: int)
    ensures value.Floor as real != value ==> u == Millisecond
    ensures value.Floor as real == value && value.Floor % SecondsInWeek == 0 ==> u == smallest
  {
    var n := value.Floor;
    WholeWeeks(n);
    if n as real != value then Millisecond
    else if n % 60 != 0 then Second
    else if n % SecondsInHour != 0 then Minute
    else if n % SecondsInDay != 0 then Hour
    else if n % SecondsInWeek != 0 then Day
    else smallest
  }

  /** `auto_units` / `_auto_units`: the (smallest, largest) units used to show a duration of
      `value` seconds, starting from the format's own pair. */
  function AutoUnits(value: real, largest: int, smallest: int): (r: (int, int))
    ensures value == 0.0 ==> r == (Day, Day)
    ensures value != 0.0 ==> r.1 == LargestUnit(value) && r.0 >= r.1
    ensures value != 0.0 && value.Floor as real != value ==> r.0 == Millisecond
    ensures value != 0.0 && value.Floor as real == value && value.Floor % SecondsInWeek == 0 ==>
      r.0 == Max(smallest, r.1)
  {
    if value == 0.0 then (Day, Day)
    else
      var l := LargestUnit(value);
      var s := SmallestUnit(value, smallest);
      (if s < l then l else s, l)
  }

  /** The length of a whole unit in seconds. */
  function WholeSeconds(u: int): int
    requires u == Week || u == Day || u == Hour || u == Minute || u == Second
  {
    if u == Week then SecondsInWeek
    else if u == Day then SecondsInDay
    else if u == Hour then SecondsInHour
    else if u == Minute then 60
    else 1
  }

  /** `u` is the coarsest unit below a week that divides `n`: every coarser unit leaves a
      remainder. */
  predicate CoarsestDividing(u: int, n: int)
  {
    (u == Day || u == Hour || u == Minute || u == Second)
    && n % WholeSeconds(u) == 0
    && (u > Week ==> n % SecondsInWeek != 0)
    && (u > Day ==> n % SecondsInDay != 0)
    && (u > Hour ==> n % SecondsInHour != 0)
    && (u > Minute ==> n % 60 != 0)
  }

  lemma MultipleOfFactor(n: int, a: int, b: int)
    requires a > 0 && b > 0 && n % (a * b) == 0
    ensures n % a == 0
  {
    var q := n / (a * b);
    assert n == (a * b) * q;
    assert n == a * (b * q);
  }

  /** A whole number of weeks is a whole number of days, hours and minutes. */
  lemma WholeWeeks(n: int)
    ensures n % SecondsInWeek == 0 ==> n % SecondsInDay == 0 && n % SecondsInHour == 0 && n % 60 == 0
  {
    if n % SecondsInWeek == 0 {
      MultipleOfFactor(n, SecondsInDay, 7);
      MultipleOfFactor(n, SecondsInHour, 168);
      MultipleOfFactor(n, 60, 10080);
    }
  }

  /** For a whole number of seconds that is not a whole number of weeks, the smallest unit
      is the coarsest unit that divides it, raised to the largest unit when it is coarser. */
  lemma AutoUnitsSmallest(value: real, largest: int, smallest: int, u: int)
    requires value != 0.0 && value.Floor as real == value
    requires CoarsestDividing(u, value.Floor)
    ensures AutoUnits(value, largest, smallest).0 == Max(u, AutoUnits(value, largest, smallest).1)
  {
    var n := value.Floor;
    assert AutoUnits(value, largest, smallest).0 == Max(SmallestUnit(value, smallest), LargestUnit(value));
    if u == Hour {
      MultipleOfFactor(n, 60, 60);
    } else if u == Day {
      MultipleOfFactor(n, 60, 1440);
      MultipleOfFactor(n, 3600, 24);
    }
  }

  /** Every whole number of seconds that is not a whole number of weeks has such a unit. */
  lemma CoarsestExists(n: int)
    requires n % SecondsInWeek != 0
    ensures CoarsestDividing(Second, n) || CoarsestDividing(Minute, n)
      || CoarsestDividing(Hour, n) || CoarsestDividing(Day, n)
  {
    if n % 60 != 0 {
      assert CoarsestDividing(Second, n);
    } else if n % SecondsInHour != 0 {
      assert CoarsestDividing(Minute, n);
    } else if n % SecondsInDay != 0 {
      assert CoarsestDividing(Hour, n);
    } else {
      assert CoarsestDividing(Day, n);
    }
  }

  lemma AutoUnitsExamples()
    ensures AutoUnits(90.0, NoUnit, NoUnit) == (Second, Minute)
    ensures AutoUnits(7200.0, NoUnit, NoUnit) == (Hour, Hour)
    ensures AutoUnits(1.5, NoUnit, NoUnit) == (Millisecond, Second)
    ensures AutoUnits(SecondsInWeek as real, Week, NoUnit) == (Week, Week)
  {
  }

  // ---- Unit labels ----

  /** `DurationStyle` */
  const Compact: int := 0
  const Short: int := 1
  const Long: int := 2

  /** `unit_format` / `_unit_format`: nothing in the compact style, the abbreviation (by default
      the unit's first letter) in the short style, else a space, the unit and a plural "s"
      unless the value is 1. The default abbreviation is taken whatever the style, so an empty
      unit without an abbreviation raises. */
  function UnitFormat(unit: string, value: int, style: int, abbrev: Option<string>): (r: Result<string>)
    ensures r.Err? <==> abbrev.None? && unit == ""
    ensures r.Err? ==> r.error == IndexError
    ensures r.Ok? && style == Compact ==> r.value == ""
    ensures r.Ok? && style == Short ==> r.value == if abbrev.Some? then abbrev.value else [unit[0]]
    ensures r.Ok? && style != Compact && style != Short ==>
      |r.value| == |unit| + (if value == 1 then 1 else 2) && r.value[0] == ' '
      && r.value[1..|unit| + 1] == unit && r.value[|unit| + 1..] == (if value == 1 then "" else "s")
  {
    var plural := if value == 1 then "" else "s";
    if abbrev.None? && unit == [] then Err(IndexError)
    else
      var a := if abbrev.Some? then abbrev.value else [unit[0]];
      if style == Compact then Ok("")
      else if style == Short then Ok(a)
      else Ok(" " + unit + plural)
  }

  // ---- Formatting ----

  datatype FormattingType =
    | Base | Currency | DateTime | Fraction | Number | Percentage | Scientific
    | Tickbox | Rating | Slider | Stepper | Popup | TextFormat

  /** The fields of a `Formatting` its checks read or fill in. */
  datatype Formatting = Formatting(
    kind: FormattingType,
    base: int,
    baseUseMinusSign: bool,
    currencyCode: string,
    dateTimeFormat: string,
    decimalPlaces: int)

  const DecimalPlacesAuto: int := 253
  const MaxBase: int := 36

  /** The keys of `DATETIME_FIELD_MAP`. */
  const DateFields: set<string> := {
    "a", "EEEE", "EEE", "yyyy", "yy", "y", "MMMM", "MMM", "MM", "M", "d", "dd", "DDD", "DD",
    "D", "HH", "H", "hh", "h", "k", "kk", "K", "KK", "mm", "m", "ss", "s", "W", "ww", "G", "F",
    "S", "SS", "SSS", "SSSS", "SSSSS"}

  /** Every code is a key of `DATETIME_FIELD_MAP`: the `for el in formats` loop. */
  function KnownFields(codes: seq<string>): (b: bool)
    ensures b <==> forall k | 0 <= k < |codes| :: codes[k] in DateFields
  {
    if codes == [] then true
    else codes[0] in DateFields && KnownFields(codes[1..])
  }

  /** The words the date-time check reads: `re.sub(r"[^a-zA-Z\s]", " ", ...).split()` keeps
      exactly the maximal runs of ASCII letters, quoted or not. */
  function DateWords(format: string): seq<string>
  {
    CellFormat.FieldCodes(CellFormat.Pieces(format))
  }

  /** `Formatting.__post_init__`: the checks in their order, each a TypeError, and the
      default number of decimal places. `currencies` stands for the `CURRENCIES` table. */
  function NewFormatting(kind: FormattingType, base: int, baseUseMinusSign: bool, currencyCode: string,
                         dateTimeFormat: string, decimalPlaces: Option<int>, currencies: set<string>)
    : (r: Result<Formatting>)
    ensures r.Ok? <==>
      (kind == DateTime ==> forall k | 0 <= k < |DateWords(dateTimeFormat)| :: DateWords(dateTimeFormat)[k] in DateFields)
      && (kind == Currency ==> currencyCode in currencies)
      && (kind == Base ==> 2 <= base <= MaxBase && (baseUseMinusSign || base in {2, 8, 16}))
    ensures r.Err? ==> r.error == TypeError
    ensures r.Ok? ==> (r.value.kind == kind && r.value.base == base
      && r.value.baseUseMinusSign == baseUseMinusSign && r.value.currencyCode == currencyCode
      && r.value.dateTimeFormat == dateTimeFormat)
    ensures r.Ok? && decimalPlaces.Some? ==> r.value.decimalPlaces == decimalPlaces.value
    ensures r.Ok? && decimalPlaces.None? ==>
      r.value.decimalPlaces == if kind == Currency then 2 else DecimalPlacesAuto
  {
    if kind == DateTime && !KnownFields(DateWords(dateTimeFormat)) then Err(TypeError)
    else if kind == Currency && currencyCode !in currencies then Err(TypeError)
    else
      var places := if decimalPlaces.Some? then decimalPlaces.value
                    else if kind == Currency then 2 else DecimalPlacesAuto;
      if kind == Base && !baseUseMinusSign && base !in {2, 8, 16} then Err(TypeError)
      else if kind == Base && (base < 2 || base > MaxBase) then Err(TypeError)
      else Ok(Formatting(kind, base, baseUseMinusSign, currencyCode, dateTimeFormat, places))
  }

  /** `decode_date_format_field`: a key of `DATETIME_FIELD_MAP` is rendered by `strftime`, which
      stands for the table's strftime patterns and functions; any other code raises. */
  function FieldRender(strftime: string -> string): string -> Result<string>
  {
    code => if code in DateFields then Ok(strftime(code)) else Err(UnsupportedError)
  }

  lemma {:induction false} RenderKnown(ps: seq<CellFormat.Piece>, strftime: string -> string)
    requires forall k | 0 <= k < |CellFormat.FieldCodes(ps)| :: CellFormat.FieldCodes(ps)[k] in DateFields
    ensures CellFormat.Render(ps, FieldRender(strftime)).Ok?
  {
    if ps != [] {
      var codes := CellFormat.FieldCodes(ps);
      var rest := CellFormat.FieldCodes(ps[1..]);
      if ps[0].FieldCode? {
        assert codes == [ps[0].code] + rest;
        assert codes[0] in DateFields;
        forall k | 0 <= k < |rest|
          ensures rest[k] in DateFields
        {
          assert rest[k] == codes[k + 1];
        }
      } else {
        assert codes == rest;
      }
      RenderKnown(ps[1..], strftime);
    }
  }

  /** A date-time format that a `Formatting` accepts, written without quotes, never makes
      `decode_date_format` raise for an unknown field code. */
  lemma AcceptedDateFormatDecodes(format: string, strftime: string -> string, currencies: set<string>)
    requires '\'' !in format
    requires NewFormatting(DateTime, 10, true, "GBP", format, None, currencies).Ok?
    ensures CellFormat.DateScan(format, false, None, FieldRender(strftime)).Ok?
  {
    RenderKnown(CellFormat.Pieces(format), strftime);
    CellFormat.DateScanUnquoted(format, FieldRender(strftime));
  }

  // ---- Colours ----

  /** A tuple element: an int or anything else. */
  datatype Scalar = IntScalar(i: int) | OtherScalar

  /** What may be passed as a colour. */
  datatype ColorArg =
    | NoColorArg
    | RgbArg(r: int, g: int, b: int)
    | TupleArg(items: seq<Scalar>)
    | ListArg(colors: seq<ColorArg>)
    | OtherColorArg

  /** A checked colour: None, an `RGB`, or a list of checked colours. */
  datatype Color = NoColor | Rgb(r: int, g: int, b: int) | Colors(colors: seq<Color>)

  predicate IsRgbTuple(items: seq<Scalar>)
  {
    |items| == 3 && items[0].IntScalar? && items[1].IntScalar? && items[2].IntScalar?
  }

  /** `rgb_color`: None and an `RGB` pass through, a tuple of three ints becomes an `RGB`, a
      list is checked element by element, and anything else raises TypeError. */
  function RgbColor(c: ColorArg): (r: Result<Color>)
    ensures r.Err? ==> r.error == TypeError
    ensures c.TupleArg? ==> (r.Ok? <==> IsRgbTuple(c.items))
    ensures c.OtherColorArg? ==> r.Err?
    decreases c
  {
    match c
    case NoColorArg => Ok(NoColor)
    case RgbArg(r, g, b) => Ok(Rgb(r, g, b))
    case TupleArg(items) =>
      if IsRgbTuple(items) then Ok(Rgb(items[0].i, items[1].i, items[2].i)) else Err(TypeError)
    case ListArg(colors) =>
      var cs :- RgbColors(colors);
      Ok(Colors(cs))
    case OtherColorArg => Err(TypeError)
  }

  /** `[rgb_color(c) for c in color]`, raising at the first bad element. */
  function RgbColors(cs: seq<ColorArg>): (r: Result<seq<Color>>)
    ensures r.Err? ==> r.error == TypeError
    ensures r.Ok? ==> |r.value| == |cs|
    decreases cs
  {
    if cs == [] then Ok([])
    else
      var first :- RgbColor(cs[0]);
      var rest :- RgbColors(cs[1..]);
      Ok([first] + rest)
  }

  /** A checked colour passed back in as an argument. */
  function ColorAsArg(c: Color): ColorArg
  {
    match c
    case NoColor => NoColorArg
    case Rgb(r, g, b) => RgbArg(r, g, b)
    case Colors(cs) => ListArg(ColorsAsArgs(cs))
  }

  function ColorsAsArgs(cs: seq<Color>): (r: seq<ColorArg>)
    ensures |r| == |cs|
  {
    if cs == [] then [] else [ColorAsArg(cs[0])] + ColorsAsArgs(cs[1..])
  }

  /** Checking a checked colour again gives it back: `rgb_color` is idempotent. */
  lemma {:induction false} RgbColorIdempotent(c: Color)
    ensures RgbColor(ColorAsArg(c)) == Ok(c)
    decreases c
  {
    match c
    case NoColor =>
    case Rgb(r, g, b) =>
    case Colors(cs) =>
      RgbColorsIdempotent(cs);
  }

  lemma {:induction false} RgbColorsIdempotent(cs: seq<Color>)
    ensures RgbColors(ColorsAsArgs(cs)) == Ok(cs)
    decreases cs
  {
    if cs != [] {
      var args := ColorsAsArgs(cs);
      assert args[0] == ColorAsArg(cs[0]) && args[1..] == ColorsAsArgs(cs[1..]);
      RgbColorIdempotent(cs[0]);
      RgbColorsIdempotent(cs[1..]);
      assert [cs[0]] + cs[1..] == cs;
    }
  }

  /** A list is accepted exactly when every element is. */
  lemma {:induction false} RgbColorsAll(cs: seq<ColorArg>)
    ensures RgbColors(cs).Ok? <==> forall k | 0 <= k < |cs| :: RgbColor(cs[k]).Ok?
    ensures RgbColors(cs).Ok? ==> forall k | 0 <= k < |cs| :: RgbColor(cs[k]) == Ok(RgbColors(cs).value[k])
    decreases cs
  {
    if cs != [] {
      RgbColorsAll(cs[1..]);
      assert forall k | 1 <= k < |cs| :: cs[k] == cs[1..][k - 1];
    }
  }

  // ---- Alignment ----

  /** `HorizontalJustification`, or an int kept as it was given. */
  datatype Horizontal = Left | Right | Center | Justified | AutoAlign | HorizontalCode(code: int)

  /** `VerticalJustification`, or an int kept as it was given. */
  datatype Vertical = Top | Middle | Bottom | VerticalCode(code: int)

  datatype Alignment = Alignment(horizontal: Horizontal, vertical: Vertical)

  /** An element of an alignment tuple. */
  datatype AlignItem = AlignInt(i: int) | AlignStr(s: string) | AlignOther

  /** What may be passed as an alignment. */
  datatype AlignArg = NoAlignArg | AlignmentArg(a: Alignment) | AlignTuple(items: seq<AlignItem>) | OtherAlignArg

  /** `HORIZONTAL_MAP` */
  function HorizontalNamed(name: string): Option<Horizontal>
  {
    if name == "left" then Some(Left)
    else if name == "right" then Some(Right)
    else if name == "center" then Some(Center)
    else if name == "justified" then Some(Justified)
    else if name == "auto" then Some(AutoAlign)
    else None
  }

  /** `VERTICAL_MAP` */
  function VerticalNamed(name: string): Option<Vertical>
  {
    if name == "top" then Some(Top)
    else if name == "middle" then Some(Middle)
    else if name == "bottom" then Some(Bottom)
    else None
  }

  function HorizontalOf(item: AlignItem): Result<Horizontal>
    requires !item.AlignOther?
  {
    if item.AlignInt? then Ok(HorizontalCode(item.i))
    else
      var h := HorizontalNamed(Text.Lower(item.s));
      if h.None? then Err(TypeError) else Ok(h.value)
  }

  function VerticalOf(item: AlignItem): Result<Vertical>
    requires !item.AlignOther?
  {
    if item.AlignInt? then Ok(VerticalCode(item.i))
    else
      var v := VerticalNamed(Text.Lower(item.s));
      if v.None? then Err(TypeError) else Ok(v.value)
  }

  /** `Alignment.__new__`: a name is looked up in lower case and must be in the map; an int is
      kept as it is. */
  function NewAlignment(horizontal: AlignItem, vertical: AlignItem): (r: Result<Alignment>)
    requires !horizontal.AlignOther? && !vertical.AlignOther?
    ensures r.Err? ==> r.error == TypeError
    ensures r.Ok? <==> HorizontalOf(horizontal).Ok? && VerticalOf(vertical).Ok?
  {
    var h :- HorizontalOf(horizontal);
    var v :- VerticalOf(vertical);
    Ok(Alignment(h, v))
  }

  /** `alignment`: None gives the default ("auto", "top"), an `Alignment` passes through, a
      pair of ints or strings is built into one, anything else raises TypeError. */
  function AlignmentOf(value: AlignArg): (r: Result<Alignment>)
    ensures value.NoAlignArg? ==> r == Ok(Alignment(AutoAlign, Top))
    ensures value.AlignmentArg? ==> r == Ok(value.a)
    ensures value.AlignTuple? ==>
      (r.Ok? <==> |value.items| == 2 && !value.items[0].AlignOther? && !value.items[1].AlignOther?
                  && HorizontalOf(value.items[0]).Ok? && VerticalOf(value.items[1]).Ok?)
    ensures value.OtherAlignArg? ==> r.Err?
    ensures r.Err? ==> r.error == TypeError
  {
    match value
    case NoAlignArg =>
      NamesReadBack(AutoAlign, Top);
      NewAlignment(AlignStr(HorizontalName(AutoAlign)), AlignStr(VerticalName(Top)))
    case AlignmentArg(a) => Ok(a)
    case AlignTuple(items) =>
      if |items| == 2 && !items[0].AlignOther? && !items[1].AlignOther? then NewAlignment(items[0], items[1])
      else Err(TypeError)
    case OtherAlignArg => Err(TypeError)
  }

  /** The name each named justification is written as. */
  function HorizontalName(h: Horizontal): string
    requires !h.HorizontalCode?
  {
    match h
    case Left => "left"
    case Right => "right"
    case Center => "center"
    case Justified => "justified"
    case AutoAlign => "auto"
  }

  function VerticalName(v: Vertical): string
    requires !v.VerticalCode?
  {
    match v
    case Top => "top"
    case Middle => "middle"
    case Bottom => "bottom"
  }

  /** A name without capitals is its own lower case. */
  lemma LowerOfLowerCase(s: string)
    requires forall k | 0 <= k < |s| :: !('A' <= s[k] <= 'Z')
    ensures Text.Lower(s) == s
  {
  }

  /** Lower-casing twice changes nothing more. */
  lemma LowerTwice(s: string)
    ensures Text.Lower(Text.Lower(s)) == Text.Lower(s)
  {
    LowerOfLowerCase(Text.Lower(s));
  }

  /** The map names read back to the justifications they name. */
  lemma NamesReadBack(h: Horizontal, v: Vertical)
    requires !h.HorizontalCode? && !v.VerticalCode?
    ensures NewAlignment(AlignStr(HorizontalName(h)), AlignStr(VerticalName(v))) == Ok(Alignment(h, v))
  {
    HorizontalReadBack(h);
    VerticalReadBack(v);
  }

  lemma HorizontalReadBack(h: Horizontal)
    requires !h.HorizontalCode?
    ensures HorizontalOf(AlignStr(HorizontalName(h))) == Ok(h)
  {
    var name := HorizontalName(h);
    LowerOfLowerCase(name);
  }

  lemma VerticalReadBack(v: Vertical)
    requires !v.VerticalCode?
    ensures VerticalOf(AlignStr(VerticalName(v))) == Ok(v)
  {
    var name := VerticalName(v);
    LowerOfLowerCase(name);
  }

  /** The names are matched without regard to case. */
  lemma AlignmentIgnoresCase(a: string, b: string)
    ensures NewAlignment(AlignStr(Text.Lower(a)), AlignStr(Text.Lower(b))) == NewAlignment(AlignStr(a), AlignStr(b))
  {
    LowerTwice(a);
    LowerTwice(b);
  }
}
