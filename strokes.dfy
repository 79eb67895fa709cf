/** The stroke sidecar of a table (`add_stroke` in src/numbers_parser/model.py): for each side
    of the cells it keeps layers, one per row or column line, and each layer holds runs of one
    border style along that line. Painting a border of some length on a line edits the runs it
    meets, adds the new run, and keeps the runs sorted by where they start. */
module Strokes {
  import opened Outcomes
  import Borders

  /** A stroke run: the first cell it covers along the line, how many cells, the order it was
      painted in, and its style. */
  datatype Run = Run(origin: int, length: int, order: int, border: Borders.Border)

  /** A stroke layer: the row or column line it lies on and its runs. */
  datatype Layer = Layer(index: int, runs: seq<Run>)

  /** The first cell after the run. */
  function End(run: Run): int
  {
    run.origin + run.length
  }

  /** `x in range(run.origin, run.origin + run.length)` */
  predicate InRun(x: int, run: Run)
  {
    run.origin <= x < End(run)
  }

  /** `create_stroke`: a run painted with a border, carrying the border's order. */
  function NewRun(origin: int, length: int, border: Borders.Border): (r: Run)
    ensures r.origin == origin && r.length == length && r.order == border.order && r.border == border
  {
    Run(origin, length, border.order, border)
  }

  /** Which line a side lies on and where along it a cell sits: rows for top and bottom, columns
      for right and left. */
  function Position(side: Borders.Side, row: int, col: int): (p: (int, int))
    ensures side in {Borders.Top, Borders.Bottom} ==> p == (row, col)
    ensures side in {Borders.Right, Borders.Left} ==> p == (col, row)
  {
    match side
    case Top => (row, col)
    case Right => (col, row)
    case Bottom => (row, col)
    case Left => (col, row)
  }

  /** The new run starts at or before the run and ends at or after it. */
  predicate Covers(run: Run, origin: int, length: int)
  {
    origin <= run.origin && origin + length >= End(run)
  }

  /** The three partial overlaps the edit handles: the same start and shorter, the same end
      and starting inside, or lying strictly inside. */
  predicate Handled(run: Run, origin: int, length: int)
  {
    !Covers(run, origin, length) &&
    ((origin == run.origin && length < run.length) ||
     (InRun(origin, run) && origin + length == End(run)) ||
     (InRun(origin, run) && InRun(origin + length, run)))
  }

  /** What one pass of the edit loop leaves of a run: the run itself, changed in place, and the
      second half it splits off, if any. */
  datatype Edit = Edit(head: Run, tail: Option<Run>, patched: bool)

  /** The pieces of the edit. */
  predicate InPieces(x: int, e: Edit)
  {
    InRun(x, e.head) || (e.tail.Some? && InRun(x, e.tail.value))
  }

  /** One pass of the edit loop over an existing run, `painted` being the new run. A covered run
      becomes the new run; a handled overlap gives up exactly the new run's cells and keeps its
      order and style; any other run is left as it is. */
  function EditRun(run: Run, origin: int, length: int, painted: Run): (e: Edit)
    ensures Covers(run, origin, length) <==> e.patched
    ensures e.patched ==> e == Edit(painted, None, true)
    ensures !e.patched ==> e.head.order == run.order && e.head.border == run.border
    ensures e.tail.Some? ==> !e.patched && e.tail.value.order == run.order && e.tail.value.border == run.border
    ensures e.tail.Some? && length >= 0 ==> End(e.head) <= e.tail.value.origin
    ensures !Covers(run, origin, length) && !Handled(run, origin, length) ==> e == Edit(run, None, false)
    ensures Handled(run, origin, length) && length >= 0 ==> e.head.length >= 1 && (e.tail.Some? ==> e.tail.value.length >= 1)
  {
    var start, end := run.origin, End(run);
    if origin <= start && origin + length >= end then Edit(painted, None, true)
    else if origin == start && length < run.length then
      Edit(run.(origin := origin + length, length := run.length - length), None, false)
    else if start <= origin < end && origin + length == end then
      Edit(run.(length := run.length - length), None, false)
    else if start <= origin < end && start <= origin + length < end then
      var head := run.(length := origin - start);
      Edit(head, Some(head.(origin := origin + length, length := end - origin - length)), false)
    else Edit(run, None, false)
  }

  /** A handled overlap gives up exactly the cells of the new run. */
  lemma EditRunCells(run: Run, origin: int, length: int, painted: Run, x: int)
    requires Handled(run, origin, length) && length >= 0
    ensures InPieces(x, EditRun(run, origin, length, painted)) <==> InRun(x, run) && !(origin <= x < origin + length)
  {
  }

  /** The loop also visits the halves it splits off and appends, but they lie wholly after the
      new run and the edit leaves them alone: modelling the loop over the original runs only
      loses nothing. */
  lemma SplitTailUntouched(run: Run, origin: int, length: int, painted: Run)
    requires length >= 0
    requires EditRun(run, origin, length, painted).tail.Some?
    ensures var t := EditRun(run, origin, length, painted).tail.value;
            EditRun(t, origin, length, painted) == Edit(t, None, false)
  {
  }

  /** With a negative length the same fourth case fires on the split-off half itself and splits
      off that very half again: the source's loop, which visits what it appends, never ends.
      This is why `SplitTailUntouched` needs `length >= 0`. */
  lemma NegativeLengthResplits(run: Run, origin: int, length: int, painted: Run)
    requires length < 0
    requires EditRun(run, origin, length, painted).tail.Some?
    ensures var t := EditRun(run, origin, length, painted).tail.value;
            EditRun(t, origin, length, painted).tail == Some(t)
  {
  }

  /** Painting at 5 with length -2 over the run 0..10 keeps 0..5 and splits off 3..10, which the
      same edit splits off again. */
  lemma NegativeLengthExample(order: int, border: Borders.Border, painted: Run)
    ensures EditRun(Run(0, 10, order, border), 5, -2, painted)
            == Edit(Run(0, 5, order, border), Some(Run(3, 7, order, border)), false)
    ensures EditRun(Run(3, 7, order, border), 5, -2, painted).tail == Some(Run(3, 7, order, border))
  {
  }

  /** The runs after the edit loop, in place. */
  function Heads(runs: seq<Run>, origin: int, length: int, painted: Run): (r: seq<Run>)
    ensures |r| == |runs|
    ensures forall i :: 0 <= i < |runs| ==> r[i] == EditRun(runs[i], origin, length, painted).head
  {
    seq(|runs|, i requires 0 <= i < |runs| => EditRun(runs[i], origin, length, painted).head)
  }

  /** The halves split off by the edit loop, in the order they were appended. */
  function Tails(runs: seq<Run>, origin: int, length: int, painted: Run): (r: seq<Run>)
  {
    if runs == [] then []
    else
      var front := Tails(runs[..|runs| - 1], origin, length, painted);
      var e := EditRun(runs[|runs| - 1], origin, length, painted);
      if e.tail.Some? then front + [e.tail.value] else front
  }

  /** Some existing run is covered by the new run, so the new run is already in the layer. */
  predicate AnyCovered(runs: seq<Run>, origin: int, length: int)
  {
    exists i :: 0 <= i < |runs| && Covers(runs[i], origin, length)
  }

  /** The runs of the layer after the edit loop and the closing append, before sorting. */
  function Edited(runs: seq<Run>, origin: int, length: int, painted: Run): seq<Run>
  {
    Heads(runs, origin, length, painted) + Tails(runs, origin, length, painted)
    + (if AnyCovered(runs, origin, length) then [] else [painted])
  }

  /** The edit loop of `add_stroke` over the runs of one layer. */
  method EditRuns(runs: seq<Run>, origin: int, length: int, painted: Run) returns (out: seq<Run>, patched: bool)
    ensures out == Heads(runs, origin, length, painted) + Tails(runs, origin, length, painted)
    ensures patched == AnyCovered(runs, origin, length)
  {
    out := runs;
    patched := false;
    var i := 0;
    while i < |runs|
      invariant 0 <= i <= |runs| <= |out|
      invariant out[..i] == Heads(runs[..i], origin, length, painted)
      invariant out[i..|runs|] == runs[i..]
      invariant out[|runs|..] == Tails(runs[..i], origin, length, painted)
      invariant patched == AnyCovered(runs[..i], origin, length)
    {
      var e := EditRun(out[i], origin, length, painted);
      ghost var was := out;
      out := out[i := e.head];
      if e.tail.Some? {
        out := out + [e.tail.value];
      }
      patched := patched || e.patched;
      EditStep(runs, i, origin, length, painted, was, out);
      CoveredStep(runs, i, origin, length, painted);
      i := i + 1;
    }
    assert runs[..i] == runs;
    assert out == out[..|runs|] + out[|runs|..];
  }

  /** One pass of the edit loop, on the abstract state. */
  lemma EditStep(runs: seq<Run>, i: nat, origin: int, length: int, painted: Run, was: seq<Run>, now: seq<Run>)
    requires i < |runs| <= |was|
    requires was[..i] == Heads(runs[..i], origin, length, painted)
    requires was[i..|runs|] == runs[i..]
    requires was[|runs|..] == Tails(runs[..i], origin, length, painted)
    requires var e := EditRun(runs[i], origin, length, painted);
             now == was[i := e.head] + (if e.tail.Some? then [e.tail.value] else [])
    ensures |runs| <= |now|
    ensures now[..i + 1] == Heads(runs[..i + 1], origin, length, painted)
    ensures now[i + 1..|runs|] == runs[i + 1..]
    ensures now[|runs|..] == Tails(runs[..i + 1], origin, length, painted)
  {
    var e := EditRun(runs[i], origin, length, painted);
    var extra := if e.tail.Some? then [e.tail.value] else [];
    assert was[i] == runs[i] by {
      assert was[i..|runs|][0] == runs[i..][0];
    }
    HeadsStep(runs, i, origin, length, painted, was, was[i := e.head]);
    TailsStep(runs, i, origin, length, painted);
    assert now[|runs|..] == was[|runs|..] + extra;
    forall k | i + 1 <= k < |runs|
      ensures now[k] == runs[k]
    {
      assert was[i..|runs|][k - i] == runs[i..][k - i];
    }
  }

  lemma HeadsStep(runs: seq<Run>, i: nat, origin: int, length: int, painted: Run, was: seq<Run>, edited: seq<Run>)
    requires i < |runs| <= |was| && was[..i] == Heads(runs[..i], origin, length, painted)
    requires edited == was[i := EditRun(runs[i], origin, length, painted).head]
    ensures edited[..i + 1] == Heads(runs[..i + 1], origin, length, painted)
  {
    assert runs[..i + 1][i] == runs[i];
    assert runs[..i + 1][..i] == runs[..i];
  }

  lemma TailsStep(runs: seq<Run>, i: nat, origin: int, length: int, painted: Run)
    requires i < |runs|
    ensures var e := EditRun(runs[i], origin, length, painted);
            Tails(runs[..i + 1], origin, length, painted)
            == Tails(runs[..i], origin, length, painted) + (if e.tail.Some? then [e.tail.value] else [])
  {
    assert runs[..i + 1][..i] == runs[..i];
    assert runs[..i + 1][i] == runs[i];
  }

  /** The new run is in the layer after one more pass exactly when it was before or this pass
      patched a covered run. */
  lemma CoveredStep(runs: seq<Run>, i: nat, origin: int, length: int, painted: Run)
    requires i < |runs|
    ensures (AnyCovered(runs[..i], origin, length) || EditRun(runs[i], origin, length, painted).patched)
            == AnyCovered(runs[..i + 1], origin, length)
  {
    assert runs[..i + 1][i] == runs[i];
    if AnyCovered(runs[..i], origin, length) {
      var j :| 0 <= j < i && Covers(runs[..i][j], origin, length);
      assert runs[..i][j] == runs[..i + 1][j];
    }
    if AnyCovered(runs[..i + 1], origin, length) && !Covers(runs[i], origin, length) {
      var j :| 0 <= j < i + 1 && Covers(runs[..i + 1][j], origin, length);
      assert j < i && runs[..i][j] == runs[..i + 1][j];
    }
  }

  /** Runs in order of where they start. */
  predicate SortedByOrigin(runs: seq<Run>)
  {
    forall i, j :: 0 <= i < j < |runs| ==> runs[i].origin <= runs[j].origin
  }

  /** Puts a run after every run of a sorted list that starts at or before it. */
  function InsertByOrigin(sorted: seq<Run>, x: Run): (r: seq<Run>)
    ensures |r| == |sorted| + 1
  {
    if sorted == [] then [x]
    else if sorted[|sorted| - 1].origin <= x.origin then sorted + [x]
    else InsertByOrigin(sorted[..|sorted| - 1], x) + [sorted[|sorted| - 1]]
  }

  /** `runs.sort(key=lambda x: x.origin)`: Python's sort is stable, as inserting each run after
      the runs that start at or before it is. */
  function SortByOrigin(runs: seq<Run>): (r: seq<Run>)
    ensures |r| == |runs|
  {
    if runs == [] then []
    else InsertByOrigin(SortByOrigin(runs[..|runs| - 1]), runs[|runs| - 1])
  }

  /** Inserting adds exactly the run. */
  lemma {:induction false} InsertAdds(sorted: seq<Run>, x: Run)
    ensures multiset(InsertByOrigin(sorted, x)) == multiset(sorted) + multiset{x}
  {
    if sorted != [] && x.origin < sorted[|sorted| - 1].origin {
      var n := |sorted| - 1;
      InsertAdds(sorted[..n], x);
      assert sorted == sorted[..n] + [sorted[n]];
    }
  }

  /** Runs starting at or before a bound still do after an insertion of such a run. */
  lemma {:induction false} InsertBounded(sorted: seq<Run>, x: Run, bound: int)
    requires forall i :: 0 <= i < |sorted| ==> sorted[i].origin <= bound
    requires x.origin <= bound
    ensures forall i :: 0 <= i < |InsertByOrigin(sorted, x)| ==> InsertByOrigin(sorted, x)[i].origin <= bound
  {
    if sorted != [] && x.origin < sorted[|sorted| - 1].origin {
      var n := |sorted| - 1;
      var front := InsertByOrigin(sorted[..n], x);
      InsertBounded(sorted[..n], x, bound);
      assert InsertByOrigin(sorted, x) == front + [sorted[n]];
      forall i | 0 <= i < |front| + 1
        ensures (front + [sorted[n]])[i].origin <= bound
      {
        if i < |front| {
          assert (front + [sorted[n]])[i] == front[i];
        }
      }
    }
  }

  /** Inserting keeps a list sorted. */
  lemma {:induction false} InsertSorted(sorted: seq<Run>, x: Run)
    requires SortedByOrigin(sorted)
    ensures SortedByOrigin(InsertByOrigin(sorted, x))
  {
    if sorted != [] && x.origin < sorted[|sorted| - 1].origin {
      var n := |sorted| - 1;
      var front := InsertByOrigin(sorted[..n], x);
      InsertSorted(sorted[..n], x);
      InsertBounded(sorted[..n], x, sorted[n].origin);
      var r := front + [sorted[n]];
      forall i, j | 0 <= i < j < |r|
        ensures r[i].origin <= r[j].origin
      {
        assert r[i] == front[i];
        if j < |front| {
          assert r[j] == front[j];
        } else {
          assert r[j] == sorted[n];
        }
      }
    }
  }

  /** The sorted runs are in order of origin and are the same runs. */
  lemma {:induction false} SortedRuns(runs: seq<Run>)
    ensures SortedByOrigin(SortByOrigin(runs))
    ensures multiset(SortByOrigin(runs)) == multiset(runs)
  {
    if runs != [] {
      var n := |runs| - 1;
      SortedRuns(runs[..n]);
      InsertSorted(SortByOrigin(runs[..n]), runs[n]);
      InsertAdds(SortByOrigin(runs[..n]), runs[n]);
      assert runs == runs[..n] + [runs[n]];
    }
  }

  /** The new run is in the layer after an edit: either a covered run became it, or it was
      appended. */
  lemma {:induction false} FreshInEdited(runs: seq<Run>, origin: int, length: int, painted: Run)
    ensures painted in SortByOrigin(Edited(runs, origin, length, painted))
  {
    SortedRuns(Edited(runs, origin, length, painted));
    var edited := Edited(runs, origin, length, painted);
    if AnyCovered(runs, origin, length) {
      var i :| 0 <= i < |runs| && Covers(runs[i], origin, length);
      assert edited[i] == painted;
    } else {
      assert edited[|edited| - 1] == painted;
    }
    assert painted in multiset(edited);
    assert painted in multiset(SortByOrigin(edited));
  }

  /** A new run that meets no existing run is simply added. */
  lemma {:induction false} DisjointAdds(runs: seq<Run>, origin: int, length: int, painted: Run)
    requires length >= 1
    requires forall i :: 0 <= i < |runs| ==> runs[i].length >= 1 && (End(runs[i]) <= origin || origin + length <= runs[i].origin)
    ensures Edited(runs, origin, length, painted) == runs + [painted]
  {
    forall i | 0 <= i < |runs|
      ensures EditRun(runs[i], origin, length, painted) == Edit(runs[i], None, false)
    {
      assert !Covers(runs[i], origin, length) && !Handled(runs[i], origin, length);
    }
    NoTails(runs, origin, length, painted);
  }

  lemma {:induction false} NoTails(runs: seq<Run>, origin: int, length: int, painted: Run)
    requires forall i :: 0 <= i < |runs| ==> EditRun(runs[i], origin, length, painted).tail.None?
    ensures Tails(runs, origin, length, painted) == []
  {
    if runs != [] {
      NoTails(runs[..|runs| - 1], origin, length, painted);
    }
  }

  /** An edited layer has one run per existing run, one per split, and the new run once unless
      some covered run already became it. */
  lemma {:induction false} EditedLength(runs: seq<Run>, origin: int, length: int, painted: Run)
    ensures |Tails(runs, origin, length, painted)| <= |runs|
    ensures |Edited(runs, origin, length, painted)| ==
            |runs| + |Tails(runs, origin, length, painted)| + (if AnyCovered(runs, origin, length) then 0 else 1)
  {
    if runs != [] {
      EditedLength(runs[..|runs| - 1], origin, length, painted);
    }
  }

  /** The last layer on the given line, as the search loop of `add_stroke` leaves it. */
  function LastMatch(layers: seq<Layer>, index: int): (r: Option<nat>)
    ensures r.Some? ==> r.value < |layers| && layers[r.value].index == index &&
                        forall j :: r.value < j < |layers| ==> layers[j].index != index
    ensures r.None? ==> forall j :: 0 <= j < |layers| ==> layers[j].index != index
  {
    if layers == [] then None
    else if layers[|layers| - 1].index == index then Some(|layers| - 1)
    else LastMatch(layers[..|layers| - 1], index)
  }

  /** The search loop: every matching layer replaces the one found before it. */
  method FindLayer(layers: seq<Layer>, index: int) returns (r: Option<nat>)
    ensures r == LastMatch(layers, index)
  {
    r := None;
    var i := 0;
    while i < |layers|
      invariant 0 <= i <= |layers|
      invariant r == LastMatch(layers[..i], index)
    {
      assert layers[..i + 1][..i] == layers[..i];
      if layers[i].index == index {
        r := Some(i);
      }
      i := i + 1;
    }
    assert layers[..i] == layers;
  }

  /** The layers of a side once `painted` is painted on line `index`: the last layer on the line
      is edited and sorted, or, if there is none, a layer holding just the new run is added. */
  function Painted(layers: seq<Layer>, index: int, painted: Run): seq<Layer>
  {
    var found := LastMatch(layers, index);
    if found.None? then layers + [Layer(index, [painted])]
    else layers[found.value := Layer(index, SortByOrigin(Edited(layers[found.value].runs, painted.origin, painted.length, painted)))]
  }

  /** What painting does to the layers of a side: one new layer holding the new run when none
      lies on the line, otherwise only the last layer on the line changes, to a sorted
      rearrangement of its edited runs, among which is the new run. */
  lemma PaintedLayers(layers: seq<Layer>, index: int, painted: Run)
    ensures var r := Painted(layers, index, painted);
            var found := LastMatch(layers, index);
            && (found.None? ==> r == layers + [Layer(index, [painted])])
            && (found.Some? ==>
                  var k := found.value;
                  |r| == |layers| && r[k].index == index && painted in r[k].runs && SortedByOrigin(r[k].runs) &&
                  multiset(r[k].runs) == multiset(Edited(layers[k].runs, painted.origin, painted.length, painted)) &&
                  forall j :: 0 <= j < |layers| && j != k ==> r[j] == layers[j])
  {
    var found := LastMatch(layers, index);
    if found.Some? {
      var k := found.value;
      var edited := Edited(layers[k].runs, painted.origin, painted.length, painted);
      var r := layers[k := Layer(index, SortByOrigin(edited))];
      assert Painted(layers, index, painted) == r;
      SortedRuns(edited);
      FreshInEdited(layers[k].runs, painted.origin, painted.length, painted);
    }
  }

  /** The part of `add_stroke` after the stamping, on the layers of one side. */
  method PaintLayer(layers: seq<Layer>, index: int, painted: Run) returns (out: seq<Layer>)
    ensures out == Painted(layers, index, painted)
  {
    var found := FindLayer(layers, index);
    if found.Some? {
      var runs, patched := EditRuns(layers[found.value].runs, painted.origin, painted.length, painted);
      if !patched {
        runs := runs + [painted];
      }
      assert runs == Edited(layers[found.value].runs, painted.origin, painted.length, painted);
      out := layers[found.value := Layer(index, SortByOrigin(runs))];
    } else {
      out := layers + [Layer(index, [painted])];
    }
  }

  /** The stroke sidecar: the highest paint order so far, the table size it was last told, and
      the layers of each side. */
  class Sidecar {
    var maxOrder: int
    var rowCount: int
    var columnCount: int
    var top: seq<Layer>
    var right: seq<Layer>
    var bottom: seq<Layer>
    var left: seq<Layer>

    constructor ()
      ensures maxOrder == 0 && top == right == bottom == left == []
    {
      maxOrder, rowCount, columnCount := 0, 0, 0;
      top, right, bottom, left := [], [], [], [];
    }

    /** The layers of one side. */
    function Layers(side: Borders.Side): seq<Layer>
      reads this
    {
      match side
      case Top => top
      case Right => right
      case Bottom => bottom
      case Left => left
    }

    /** `add_stroke`: the border is stamped with the next paint order; on the layer of its line
        (the last one, if several) the existing runs are edited, the new run added unless a
        covered run became it, and the runs sorted by origin; a line without a layer gets a new
        one holding just the new run. The other sides do not change. */
    method AddStroke(rows: int, cols: int, row: int, col: int, side: Borders.Side, border: Borders.Border, length: int)
      returns (stamped: Borders.Border)
      modifies this
      ensures maxOrder == old(maxOrder) + 1 && rowCount == rows && columnCount == cols
      ensures stamped == border.(order := maxOrder)
      ensures forall s :: s != side ==> Layers(s) == old(Layers(s))
      ensures var (index, origin) := Position(side, row, col);
              Layers(side) == Painted(old(Layers(side)), index, NewRun(origin, length, stamped))
    {
      maxOrder := maxOrder + 1;
      rowCount, columnCount := rows, cols;
      stamped := border.(order := maxOrder);
      var (index, origin) := Position(side, row, col);
      var layers := PaintLayer(Layers(side), index, NewRun(origin, length, stamped));
      match side {
        case Top => top := layers;
        case Right => right := layers;
        case Bottom => bottom := layers;
        case Left => left := layers;
      }
    }
  }
}
