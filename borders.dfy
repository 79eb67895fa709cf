/** Cell borders (src/numbers_parser/cell.py): the `Border` value a caller builds, and the
    `CellBorder` of a cell, whose four sides keep the border painted last, as numbered by the
    stroke sidecar's running order. */
module Borders {
  import opened Outcomes
  import Text
  import FormatOptions

  /** `BorderType`, as `BORDER_STYLE_MAP` numbers it. */
  const Solid: int := 0
  const Dashes: int := 1
  const Dots: int := 2
  const NoLine: int := 3

  const DefaultWidth: real := 0.35

  /** A border: its width in points, colour, `BorderType` and the order it was painted in. */
  datatype Border = Border(width: real, color: FormatOptions.Color, style: int, order: int)

  /** What may be passed as a width: only a float is accepted. */
  datatype WidthArg = FloatWidth(points: real) | OtherWidth

  /** What may be passed as a style: a name, a `BorderType` value, or nothing. */
  datatype StyleArg = StyleName(name: string) | StyleCode(code: int) | NoStyleArg

  /** `BORDER_STYLE_MAP` */
  function StyleNamed(name: string): Option<int>
  {
    if name == "solid" then Some(Solid)
    else if name == "dashes" then Some(Dashes)
    else if name == "dots" then Some(Dots)
    else if name == "none" then Some(NoLine)
    else None
  }

  /** `Border.__init__`: the width must be a float; no colour means black and any other colour
      goes through `rgb_color`; no style means solid, and a style name is looked up in lower
      case. Every refusal is a TypeError. */
  function NewBorder(width: WidthArg, color: FormatOptions.ColorArg, style: StyleArg, order: int): (r: Result<Border>)
    ensures r.Err? ==> r.error == TypeError
    ensures width.OtherWidth? ==> r.Err?
    ensures r.Ok? ==> r.value.width == width.points && r.value.order == order
    ensures r.Ok? && color.NoColorArg? ==> r.value.color == FormatOptions.Rgb(0, 0, 0)
    ensures r.Ok? && style.NoStyleArg? ==> r.value.style == Solid
    ensures r.Ok? && style.StyleCode? ==> r.value.style == style.code
    ensures style.StyleName? && width.FloatWidth? && FormatOptions.RgbColor(color).Ok? ==>
      (r.Ok? <==> StyleNamed(Text.Lower(style.name)).Some?)
  {
    if width.OtherWidth? then Err(TypeError)
    else
      var c :- FormatOptions.RgbColor(if color.NoColorArg? then FormatOptions.RgbArg(0, 0, 0) else color);
      var s :-
        match style
        case NoStyleArg => Ok(Solid)
        case StyleCode(code) => Ok(code)
        case StyleName(name) =>
          var named := StyleNamed(Text.Lower(name));
          if named.None? then Err(TypeError) else Ok(named.value);
      Ok(Border(width.points, c, s, order))
  }

  /** `Border.__eq__`: the order a border was painted in does not take part. */
  predicate SameBorder(a: Border, b: Border)
  {
    a.width == b.width && a.color == b.color && a.style == b.style
  }

  /** What a side setter keeps: the new border when the side has none yet or when the new one
      was painted strictly later, else the border already there. */
  function Kept(stored: Option<Border>, value: Border): (b: Border)
    ensures b == value || (stored.Some? && b == stored.value)
    ensures stored.None? ==> b == value
    ensures stored.Some? ==> b.order == if value.order > stored.value.order then value.order else stored.value.order
  {
    if stored.None? || value.order > stored.value.order then value else stored.value
  }

  /** Two borders painted at different times end up the same whatever order they are set in:
      the one painted later wins. */
  lemma KeptCommutes(stored: Option<Border>, a: Border, b: Border)
    requires a.order != b.order
    ensures Kept(Some(Kept(stored, a)), b) == Kept(Some(Kept(stored, b)), a)
  {
  }

  /** Setting the same border again changes nothing. */
  lemma KeptIdempotent(stored: Option<Border>, value: Border)
    ensures Kept(Some(Kept(stored, value)), value) == Kept(stored, value)
  {
  }

  datatype Side = Top | Right | Bottom | Left

  /** `CellBorder`: a border per side, and the sides that lie inside a merge, which read as
      having no border. */
  class CellBorder {
    var sides: map<Side, Border>
    var merged: set<Side>

    /** `CellBorder(top_merged, right_merged, bottom_merged, left_merged)` */
    constructor (topMerged: bool, rightMerged: bool, bottomMerged: bool, leftMerged: bool)
      ensures sides == map[]
      ensures (Top in merged <==> topMerged) && (Right in merged <==> rightMerged)
      ensures (Bottom in merged <==> bottomMerged) && (Left in merged <==> leftMerged)
      ensures merged <= {Top, Right, Bottom, Left}
    {
      sides := map[];
      merged := (if topMerged then {Top} else {}) + (if rightMerged then {Right} else {})
        + (if bottomMerged then {Bottom} else {}) + (if leftMerged then {Left} else {});
    }

    /** The `top`, `right`, `bottom` and `left` getters. */
    function Get(side: Side): (r: Option<Border>)
      reads this
      ensures r.Some? <==> side !in merged && side in sides
      ensures r.Some? ==> r.value == sides[side]
    {
      if side in merged then None
      else if side !in sides then None
      else Some(sides[side])
    }

    /** The `right`, `bottom` and `left` setters, and the `top` setter as it was evidently meant:
        the new border replaces the stored one only if it was painted strictly later. A merged
        side still stores it. */
    method Set(side: Side, value: Border)
      modifies this
      ensures sides == old(sides)[side := Kept(if side in old(sides) then Some(old(sides)[side]) else None, value)]
      ensures merged == old(merged)
    {
      var stored := if side in sides then Some(sides[side]) else None;
      sides := sides[side := Kept(stored, value)];
    }

    /** The `top` setter as written: it compares with the order of the border the `top`
        getter returns, which is None on a merged side, so setting the top of a merged side
        that already has a border raises AttributeError. */
    method SetTopAsWritten(value: Border) returns (r: Result<()>)
      modifies this
      ensures r.Err? <==> Top in old(sides) && Top in old(merged)
      ensures r.Err? ==> r.error == AttributeError && sides == old(sides)
      ensures r.Ok? ==> sides == old(sides)[Top := Kept(if Top in old(sides) then Some(old(sides)[Top]) else None, value)]
      ensures merged == old(merged)
    {
      if Top !in sides {
        sides := sides[Top := value];
        return Ok(());
      }
      var shown := Get(Top);
      if shown.None? {
        return Err(AttributeError);
      }
      if value.order > shown.value.order {
        sides := sides[Top := value];
      }
      return Ok(());
    }
  }

  /** The two setters agree on a top side that is not merged. */
  method TopSettersAgree(first: Border, second: Border)
    returns (corrected: map<Side, Border>, asWritten: map<Side, Border>)
    ensures corrected == asWritten
    ensures Top in corrected && corrected[Top] == Kept(Some(first), second)
  {
    var a := new CellBorder(false, false, false, false);
    var b := new CellBorder(false, false, false, false);
    a.Set(Top, first);
    var r1 := b.SetTopAsWritten(first);
    a.Set(Top, second);
    var r2 := b.SetTopAsWritten(second);
    corrected, asWritten := a.sides, b.sides;
  }

  /** A cell below the first row of a merge already bordered on top: painting its top again
      raises with the setter as written, and keeps the later border with the corrected one. */
  method TopSetterAsWrittenRaises(first: Border, second: Border) returns (asWritten: Result<()>, corrected: Option<Border>)
    requires second.order > first.order
    ensures asWritten == Err(AttributeError)
    ensures corrected == Some(second)
  {
    var a := new CellBorder(true, false, false, false);
    a.Set(Top, first);
    asWritten := a.SetTopAsWritten(second);
    var b := new CellBorder(true, false, false, false);
    b.Set(Top, first);
    b.Set(Top, second);
    corrected := if Top in b.sides then Some(b.sides[Top]) else None;
  }
}
