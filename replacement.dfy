/** Find-and-replace over Keynote archives (keynote_parser/replacement.py). A replacement
    walks a key path through the archive's dictionaries and lists, substitutes in the text
    it reaches, and then repairs the style tables that index into that text: character
    styles and paragraph styles each hold a list of entries with a `characterIndex`.
    Keynote counts these indexes in UTF-16 code units, where a character beyond U+FFFF
    takes two. The substitution itself (`re.sub(find, replace, s)`) is a parameter. */
module Replacement {
  import opened Outcomes
  import opened JsonValues
  import Text

  // ---------------------------------------------------------------------------------------
  // UTF-16 lengths and paragraph offsets.

  /** The UTF-16 code units a character takes. */
  function Width(c: char): nat
  {
    if c as int > 0xFFFF then 2 else 1
  }

  /** The length of a text in UTF-16 code units. */
  function Utf16Len(s: string): (n: nat)
    ensures n >= |s|
  {
    if s == [] then 0 else Utf16Len(s[..|s| - 1]) + Width(s[|s| - 1])
  }

  lemma {:induction false} Utf16Append(a: string, b: string)
    ensures Utf16Len(a + b) == Utf16Len(a) + Utf16Len(b)
    decreases |b|
  {
    if b == [] {
      assert a + b == a;
    } else {
      assert (a + b)[..|a + b| - 1] == a + b[..|b| - 1];
      Utf16Append(a, b[..|b| - 1]);
    }
  }

  /** Text without characters beyond U+FFFF has as many code units as characters. */
  lemma {:induction false} Utf16LenBmp(s: string)
    requires forall i :: 0 <= i < |s| ==> s[i] as int <= 0xFFFF
    ensures Utf16Len(s) == |s|
  {
    if s != [] {
      Utf16LenBmp(s[..|s| - 1]);
    }
  }

  /** The number of newlines in a text. */
  function Lines(s: string): nat
  {
    if s == [] then 0 else Lines(s[..|s| - 1]) + (if s[|s| - 1] == '\n' then 1 else 0)
  }

  /** Where each paragraph of a text starts, in UTF-16 code units: 0, and the position just
      after every newline. */
  function ParagraphOffsets(text: string): (r: seq<nat>)
    ensures |r| == 1 + Lines(text) && r[0] == 0
  {
    if text == [] then [0]
    else ParagraphOffsets(text[..|text| - 1]) + (if text[|text| - 1] == '\n' then [Utf16Len(text)] else [])
  }

  lemma LastWidth(text: string)
    requires text != []
    ensures Utf16Len(text) == Utf16Len(text[..|text| - 1]) + Width(text[|text| - 1])
  {
  }

  /** The offsets rise strictly, and the last lies within the text. */
  lemma {:induction false} ParagraphOffsetsRise(text: string)
    ensures forall j :: 0 <= j < |ParagraphOffsets(text)| - 1 ==> ParagraphOffsets(text)[j] < ParagraphOffsets(text)[j + 1]
    ensures ParagraphOffsets(text)[|ParagraphOffsets(text)| - 1] <= Utf16Len(text)
  {
    if text != [] {
      var front := text[..|text| - 1];
      ParagraphOffsetsRise(front);
      var p := ParagraphOffsets(front);
      var r := ParagraphOffsets(text);
      LastWidth(text);
      assert r[..|p|] == p;
      forall j | 0 <= j < |r| - 1
        ensures r[j] < r[j + 1]
      {
        if j < |p| - 1 {
          assert r[j] == p[j] && r[j + 1] == p[j + 1];
        }
      }
    }
  }

  /** `x` is the UTF-16 position just after some newline of `text`. */
  ghost predicate AfterNewline(text: string, x: nat)
  {
    exists i :: 0 <= i < |text| && text[i] == '\n' && x == Utf16Len(text[..i + 1])
  }

  /** Each offset after the first is the UTF-16 position just after a newline. */
  lemma {:induction false} ParagraphOffsetsAfterNewlines(text: string)
    ensures forall j :: 0 < j < |ParagraphOffsets(text)| ==> AfterNewline(text, ParagraphOffsets(text)[j])
  {
    if text != [] {
      var front := text[..|text| - 1];
      ParagraphOffsetsAfterNewlines(front);
      var p := ParagraphOffsets(front);
      var r := ParagraphOffsets(text);
      assert r[..|p|] == p;
      forall j | 0 < j < |r|
        ensures AfterNewline(text, r[j])
      {
        if j < |p| {
          assert AfterNewline(front, p[j]);
          var i :| 0 <= i < |front| && front[i] == '\n' && p[j] == Utf16Len(front[..i + 1]);
          assert text[..i + 1] == front[..i + 1];
          assert r[j] == p[j];
          assert text[i] == '\n';
        } else {
          var i := |text| - 1;
          assert text[..i + 1] == text;
          assert text[i] == '\n' && r[j] == Utf16Len(text[..i + 1]);
        }
      }
    } else {
      assert ParagraphOffsets(text) == [0];
    }
  }

  /** Every newline gives an offset: the UTF-16 position just after it. */
  lemma {:induction false} NewlinesGiveOffsets(text: string)
    ensures forall i :: 0 <= i < |text| && text[i] == '\n' ==> Utf16Len(text[..i + 1]) in ParagraphOffsets(text)
  {
    if text != [] {
      var front := text[..|text| - 1];
      NewlinesGiveOffsets(front);
      var p := ParagraphOffsets(front);
      var r := ParagraphOffsets(text);
      assert r[..|p|] == p;
      forall i | 0 <= i < |text| && text[i] == '\n'
        ensures Utf16Len(text[..i + 1]) in ParagraphOffsets(text)
      {
        if i < |front| {
          assert text[..i + 1] == front[..i + 1];
          assert front[i] == '\n';
          assert Utf16Len(front[..i + 1]) in p;
          var k :| 0 <= k < |p| && p[k] == Utf16Len(front[..i + 1]);
          assert r[k] == p[k];
        } else {
          assert text[..i + 1] == text;
          assert r == p + [Utf16Len(text)];
        }
      }
    }
  }

  /** The loop of `correct_multiline_replacement` that collects the offsets, counting the
      extra code unit of each character beyond U+FFFF as it goes. */
  method NewParagraphOffsets(text: string) returns (offsets: seq<nat>)
    ensures offsets == ParagraphOffsets(text)
  {
    offsets := [0];
    var correction := 0;
    for i := 0 to |text|
      invariant offsets == ParagraphOffsets(text[..i])
      invariant i + correction == Utf16Len(text[..i])
    {
      assert text[..i + 1][..i] == text[..i];
      if text[i] == '\n' {
        offsets := offsets + [i + 1 + correction];
      }
      if text[i] as int > 0xFFFF {
        correction := correction + 1;
      }
    }
    assert text[..|text|] == text;
  }

  /** Paragraphs of "a", an emoji and "b": the emoji takes two code units. */
  lemma ParagraphOffsetsExample()
    ensures ParagraphOffsets(['a', '\n', '\U{1F600}', '\n', 'b']) == [0, 2, 5]
  {
    var t := ['a', '\n', '\U{1F600}', '\n', 'b'];
    assert t[..4] == ['a', '\n', '\U{1F600}', '\n'];
    assert t[..4][..3] == ['a', '\n', '\U{1F600}'];
    assert t[..4][..3][..2] == ['a', '\n'];
    assert t[..4][..3][..2][..1] == ['a'];
    assert ['a'][..0] == [];
    assert Utf16Len(['a', '\n']) == 2;
    assert Utf16Len(['a', '\n', '\U{1F600}']) == 4;
    assert Utf16Len(['a', '\n', '\U{1F600}', '\n']) == 5;
  }

  // ---------------------------------------------------------------------------------------
  // Character-style runs.

  /** Python's clamping of a slice bound `u` for a sequence of length `n`; a negative bound
      counts from the end. */
  function PyIndex(u: int, n: nat): (i: nat)
    ensures i <= n
  {
    if u < 0 then (if u + n < 0 then 0 else u + n) else if u > n then n else u
  }

  /** The characters that end at or before UTF-16 position `u`: where a slice at code unit
      `u` falls in the text. */
  function CodePoints(text: string, u: int): (i: nat)
    ensures i <= |text|
  {
    if text == [] || u < Width(text[0]) then 0 else 1 + CodePoints(text[1..], u - Width(text[0]))
  }

  /** The index of a style bound in the text: counted in characters as written, in UTF-16
      code units when `utf16` holds. */
  function Pos(text: string, u: int, utf16: bool): (i: nat)
    ensures i <= |text|
  {
    if utf16 then CodePoints(text, u) else PyIndex(u, |text|)
  }

  /** The length of a text in the same unit. */
  function Measure(s: string, utf16: bool): nat
  {
    if utf16 then Utf16Len(s) else |s|
  }

  /** `text[a:b]` */
  function Slice(text: string, a: int, b: int, utf16: bool): string
  {
    var i := Pos(text, a, utf16);
    var j := Pos(text, b, utf16);
    if j <= i then [] else text[i..j]
  }

  /** `''.join(parts)` */
  function Concat(parts: seq<string>): string
  {
    if parts == [] then "" else Concat(parts[..|parts| - 1]) + parts[|parts| - 1]
  }

  /** The run of style entry `j`, substituted. */
  function Chunk(sub: string -> string, text: string, idx: seq<int>, utf16: bool, j: nat): string
    requires j + 1 < |idx|
  {
    sub(Slice(text, idx[j], idx[j + 1], utf16))
  }

  /** The substituted runs of the first `n` entries. */
  function Chunks(sub: string -> string, text: string, idx: seq<int>, utf16: bool, n: nat): (r: seq<string>)
    requires n < |idx|
    ensures |r| == n && forall j :: 0 <= j < n ==> r[j] == Chunk(sub, text, idx, utf16, j)
  {
    seq(n, j requires 0 <= j < n => Chunk(sub, text, idx, utf16, j))
  }

  /** The new start of each entry: the length of the substituted runs before it. */
  function Starts(parts: seq<string>, utf16: bool): (r: seq<nat>)
    ensures |r| == |parts| + 1 && forall j :: 0 <= j <= |parts| ==> r[j] == Measure(Concat(parts[..j]), utf16)
  {
    seq(|parts| + 1, j requires 0 <= j <= |parts| => Measure(Concat(parts[..j]), utf16))
  }

  /** The branch of `correct_charstyle_replacement` for several style entries, on the text
      and the entries' indexes: each run between two entries is substituted on its own, the
      text after the last entry is kept, and every entry moves to where its run now starts.
      Fewer than two entries leave `new_indices` empty, and reading its last element raises
      IndexError. Counting in characters (`utf16` false) is the code as written; counting in
      UTF-16 code units is what the indexes mean. */
  function Restyled(sub: string -> string, text: string, idx: seq<int>, utf16: bool): (r: Result<(string, seq<nat>)>)
    ensures r.Err? <==> |idx| < 2
    ensures r.Ok? ==> |r.value.1| == |idx|
  {
    if |idx| < 2 then Err(IndexError)
    else
      var parts := Chunks(sub, text, idx, utf16, |idx| - 1);
      Ok((Concat(parts) + text[Pos(text, idx[|idx| - 1], utf16)..], Starts(parts, utf16)))
  }

  lemma MeasureAppend(a: string, b: string, utf16: bool)
    ensures Measure(a + b, utf16) == Measure(a, utf16) + Measure(b, utf16)
  {
    Utf16Append(a, b);
  }

  /** The new indexes start at 0, and each next one lies past the previous by the length of
      the substituted run between them, which the new text holds in that place. */
  lemma {:induction false} RestyledRuns(sub: string -> string, text: string, idx: seq<int>, utf16: bool, j: nat)
    requires |idx| >= 2 && j + 1 < |idx|
    ensures var (t, starts) := Restyled(sub, text, idx, utf16).value;
            var parts := Chunks(sub, text, idx, utf16, |idx| - 1);
            && starts[0] == 0
            && starts[j + 1] == starts[j] + Measure(Chunk(sub, text, idx, utf16, j), utf16)
            && Concat(parts[..j + 1]) == Concat(parts[..j]) + Chunk(sub, text, idx, utf16, j)
            && t == Concat(parts) + text[Pos(text, idx[|idx| - 1], utf16)..]
  {
    var parts := Chunks(sub, text, idx, utf16, |idx| - 1);
    assert parts[..j + 1][..j] == parts[..j];
    MeasureAppend(Concat(parts[..j]), parts[j], utf16);
    assert parts[..0] == [];
  }

  /** The loop of `correct_charstyle_replacement`: the runs, substituted one by one, and the
      running start of each. */
  method RestyleRuns(sub: string -> string, text: string, idx: seq<int>, utf16: bool) returns (r: Result<(string, seq<nat>)>)
    ensures r == Restyled(sub, text, idx, utf16)
  {
    var parts: seq<string> := [];
    var newIndices: seq<nat> := [];
    var newStart := 0;
    if |idx| < 2 {
      return Err(IndexError);
    }
    for j := 0 to |idx| - 1
      invariant |parts| == j && forall l :: 0 <= l < j ==> parts[l] == Chunk(sub, text, idx, utf16, l)
      invariant |newIndices| == j && forall l :: 0 <= l < j ==> newIndices[l] == Measure(Concat(parts[..l]), utf16)
      invariant newStart == Measure(Concat(parts), utf16)
    {
      var chunk := sub(Slice(text, idx[j], idx[j + 1], utf16));
      RunStep(parts, newIndices, newStart, chunk, utf16);
      parts := parts + [chunk];
      newIndices := newIndices + [newStart];
      newStart := newStart + Measure(chunk, utf16);
    }
    assert parts == Chunks(sub, text, idx, utf16, |idx| - 1);
    StartsClosed(parts, newIndices, utf16);
    newIndices := newIndices + [newIndices[|newIndices| - 1] + Measure(parts[|parts| - 1], utf16)];
    return Ok((Concat(parts) + text[Pos(text, idx[|idx| - 1], utf16)..], newIndices));
  }

  /** One pass of the loop keeps the running starts. */
  lemma RunStep(parts: seq<string>, starts: seq<nat>, start: nat, chunk: string, utf16: bool)
    requires |starts| == |parts| && forall l :: 0 <= l < |parts| ==> starts[l] == Measure(Concat(parts[..l]), utf16)
    requires start == Measure(Concat(parts), utf16)
    ensures forall l :: 0 <= l < |parts| + 1 ==> (starts + [start])[l] == Measure(Concat((parts + [chunk])[..l]), utf16)
    ensures start + Measure(chunk, utf16) == Measure(Concat(parts + [chunk]), utf16)
  {
    forall l | 0 <= l < |parts| + 1
      ensures (starts + [start])[l] == Measure(Concat((parts + [chunk])[..l]), utf16)
    {
      if l < |parts| {
        assert (parts + [chunk])[..l] == parts[..l];
      } else {
        assert (parts + [chunk])[..l] == parts;
      }
    }
    assert (parts + [chunk])[..|parts|] == parts;
    MeasureAppend(Concat(parts), chunk, utf16);
  }

  /** The starts of all runs but the last, followed by the last start plus the last run,
      are the starts of every run and of the text after them. */
  lemma StartsClosed(parts: seq<string>, starts: seq<nat>, utf16: bool)
    requires parts != [] && |starts| == |parts|
    requires forall l :: 0 <= l < |parts| ==> starts[l] == Measure(Concat(parts[..l]), utf16)
    ensures starts + [starts[|starts| - 1] + Measure(parts[|parts| - 1], utf16)] == Starts(parts, utf16)
  {
    var all := Starts(parts, utf16);
    var closed := starts + [starts[|starts| - 1] + Measure(parts[|parts| - 1], utf16)];
    LastStart(parts, utf16);
    assert parts[..|parts|] == parts;
    assert closed[|parts|] == all[|parts|];
    assert forall l :: 0 <= l < |parts| ==> closed[l] == all[l];
  }

  /** The last start the loop adds is the length of all the runs. */
  lemma LastStart(parts: seq<string>, utf16: bool)
    requires parts != []
    ensures Measure(Concat(parts[..|parts| - 1]), utf16) + Measure(parts[|parts| - 1], utf16) == Measure(Concat(parts), utf16)
  {
    MeasureAppend(Concat(parts[..|parts| - 1]), parts[|parts| - 1], utf16);
  }

  /** `correct_charstyle_replacement` as written: it slices and measures in characters. */
  function CharStyleAsWritten(sub: string -> string, text: string, idx: seq<int>): Result<(string, seq<nat>)>
  {
    Restyled(sub, text, idx, false)
  }

  /** The same, counting in the UTF-16 code units that the indexes are in. */
  function CharStyle(sub: string -> string, text: string, idx: seq<int>): Result<(string, seq<nat>)>
  {
    Restyled(sub, text, idx, true)
  }

  /** A style bound that falls on a character boundary is found again by `CodePoints`. */
  lemma {:induction false} CodePointsOfBoundary(text: string, k: nat)
    requires k <= |text|
    ensures CodePoints(text, Utf16Len(text[..k])) == k
  {
    if k > 0 {
      assert text[..k] == [text[0]] + text[1..][..k - 1];
      Utf16Append([text[0]], text[1..][..k - 1]);
      assert [text[0]][..0] == [];
      CodePointsOfBoundary(text[1..], k - 1);
    }
  }

  /** The UTF-16 positions of the character positions `ks`. */
  function Boundaries(text: string, ks: seq<nat>): (idx: seq<int>)
    requires forall j :: 0 <= j < |ks| ==> ks[j] <= |text|
    ensures |idx| == |ks| && forall j :: 0 <= j < |ks| ==> idx[j] == Utf16Len(text[..ks[j]])
  {
    seq(|ks|, j requires 0 <= j < |ks| => Utf16Len(text[..ks[j]]))
  }

  /** Style bounds at character boundaries, rising from the start of the text. */
  predicate Bounds(text: string, ks: seq<nat>)
  {
    && |ks| >= 2 && ks[0] == 0
    && (forall j :: 0 <= j < |ks| ==> ks[j] <= |text|)
    && (forall j :: 0 <= j < |ks| - 1 ==> ks[j] <= ks[j + 1])
  }

  /** With a substitution that changes nothing, restyling in UTF-16 code units gives back the
      text and the indexes it was given. */
  lemma CharStyleIdentity(sub: string -> string, text: string, ks: seq<nat>)
    requires forall s :: sub(s) == s
    requires Bounds(text, ks)
    ensures CharStyle(sub, text, Boundaries(text, ks)) == Ok((text, Boundaries(text, ks)))
  {
    var idx := Boundaries(text, ks);
    var parts := Chunks(sub, text, idx, true, |idx| - 1);
    IdentityChunks(sub, text, ks);
    IdentityText(parts, text, ks, idx);
    IdentityStarts(parts, text, ks, idx);
  }

  /** Runs that are the text between rising bounds join back into the whole text. */
  lemma IdentityText(parts: seq<string>, text: string, ks: seq<nat>, idx: seq<int>)
    requires |ks| == |parts| + 1 && ks[0] == 0
    requires forall l :: 0 <= l < |ks| ==> ks[l] <= |text|
    requires forall l :: 0 <= l < |parts| ==> ks[l] <= ks[l + 1] && parts[l] == text[ks[l]..ks[l + 1]]
    requires |idx| == |ks| && idx[|parts|] == Utf16Len(text[..ks[|parts|]])
    ensures Concat(parts) + text[Pos(text, idx[|parts|], true)..] == text
  {
    var n, k := |parts|, ks[|parts|];
    ConcatRuns(parts, text, ks, n);
    assert parts[..n] == parts;
    CodePointsOfBoundary(text, k);
    assert Pos(text, idx[n], true) == k;
    TakeDrop(text, k);
  }

  lemma TakeDrop(text: string, k: nat)
    requires k <= |text|
    ensures text[..k] + text[k..] == text
  {
  }

  /** Runs that are the text between bounds start at those bounds, in UTF-16 code units. */
  lemma IdentityStarts(parts: seq<string>, text: string, ks: seq<nat>, idx: seq<int>)
    requires |ks| == |parts| + 1 && ks[0] == 0
    requires forall l :: 0 <= l < |ks| ==> ks[l] <= |text|
    requires forall l :: 0 <= l < |parts| ==> ks[l] <= ks[l + 1] && parts[l] == text[ks[l]..ks[l + 1]]
    requires |idx| == |ks| && forall l :: 0 <= l < |ks| ==> idx[l] == Utf16Len(text[..ks[l]])
    ensures Starts(parts, true) == idx
  {
    var starts := Starts(parts, true);
    forall j | 0 <= j <= |parts|
      ensures starts[j] == idx[j]
    {
      ConcatRuns(parts, text, ks, j);
    }
  }

  /** With a substitution that changes nothing, run `l` is the text between bounds `l` and
      `l + 1`. */
  lemma IdentityChunks(sub: string -> string, text: string, ks: seq<nat>)
    requires forall s :: sub(s) == s
    requires Bounds(text, ks)
    ensures forall l :: 0 <= l < |ks| - 1 ==>
              Chunks(sub, text, Boundaries(text, ks), true, |ks| - 1)[l] == text[ks[l]..ks[l + 1]]
  {
    var idx := Boundaries(text, ks);
    forall l | 0 <= l < |ks| - 1
      ensures Chunk(sub, text, idx, true, l) == text[ks[l]..ks[l + 1]]
    {
      CodePointsOfBoundary(text, ks[l]);
      CodePointsOfBoundary(text, ks[l + 1]);
    }
  }

  /** Runs that cut the text at rising bounds from 0 join up to the text before each bound. */
  lemma {:induction false} ConcatRuns(parts: seq<string>, text: string, ks: seq<nat>, j: nat)
    requires |ks| == |parts| + 1 && ks[0] == 0 && j <= |parts|
    requires forall l :: 0 <= l < |ks| ==> ks[l] <= |text|
    requires forall l :: 0 <= l < |parts| ==> ks[l] <= ks[l + 1] && parts[l] == text[ks[l]..ks[l + 1]]
    ensures Concat(parts[..j]) == text[..ks[j]]
  {
    if j == 0 {
      assert parts[..0] == [];
    } else {
      ConcatRuns(parts, text, ks, j - 1);
      assert parts[..j][..j - 1] == parts[..j - 1];
      assert text[..ks[j]] == text[..ks[j - 1]] + text[ks[j - 1]..ks[j]];
    }
  }

  /** `re.sub("a", "xyz", s)` */
  function AToXyz(s: string): string
  {
    Text.ReplaceAll(s, "a", "xyz")
  }

  /** An emoji, "a" and "b", each with a style of its own: Keynote puts the entries at code
      units 0, 2 and 3. As written, the first run is sliced as the emoji and "a", and the
      second style then starts two code units too late, inside the replacement. */
  lemma EmojiRunsAsWritten()
    ensures CharStyleAsWritten(AToXyz, ['\U{1F600}', 'a', 'b'], [0, 2, 3])
         == Ok((['\U{1F600}', 'x', 'y', 'z', 'b'], [0, 4, 5]))
  {
    var text := ['\U{1F600}', 'a', 'b'];
    var idx := [0, 2, 3];
    assert text[0..2] == ['\U{1F600}', 'a'];
    assert text[2..3] == ['b'];
    assert AToXyz(['\U{1F600}', 'a']) == ['\U{1F600}', 'x', 'y', 'z'];
    assert AToXyz(['b']) == ['b'];
    var parts := Chunks(AToXyz, text, idx, false, 2);
    assert parts == [['\U{1F600}', 'x', 'y', 'z'], ['b']];
    assert parts[..1] == [['\U{1F600}', 'x', 'y', 'z']];
    assert parts[..1][..0] == [] && parts[..0] == [] && parts[..2] == parts;
    assert Concat(parts[..1]) == ['\U{1F600}', 'x', 'y', 'z'];
    assert Concat(parts) == ['\U{1F600}', 'x', 'y', 'z', 'b'];
    var starts := Starts(parts, false);
    assert starts[0] == 0 && starts[1] == 4 && starts[2] == 5;
    assert starts == [0, 4, 5];
    assert Pos(text, idx[2], false) == 3 && text[3..] == [];
    assert Restyled(AToXyz, text, idx, false) == Ok((Concat(parts) + text[3..], starts));
    assert Concat(parts) + text[3..] == ['\U{1F600}', 'x', 'y', 'z', 'b'];
    assert CharStyleAsWritten(AToXyz, text, idx) == Restyled(AToXyz, text, idx, false);
  }

  /** The same runs counted in UTF-16 code units: the emoji keeps the first style, the
      replacement of "a" starts the second at code unit 2 and "b" keeps the third. */
  lemma EmojiRunsCorrected()
    ensures CharStyle(AToXyz, ['\U{1F600}', 'a', 'b'], [0, 2, 3])
         == Ok((['\U{1F600}', 'x', 'y', 'z', 'b'], [0, 2, 5]))
  {
    var text := ['\U{1F600}', 'a', 'b'];
    var idx := [0, 2, 3];
    var parts := Chunks(AToXyz, text, idx, true, 2);
    EmojiCorrectedChunks(text, idx);
    EmojiCorrectedStarts(parts);
    RestyledOf(AToXyz, text, idx, true, parts, ['b']);
    assert Concat(parts) + ['b'] == ['\U{1F600}', 'x', 'y', 'z', 'b'];
  }

  /** `Restyled` on at least two indexes, with its runs and its tail named. */
  lemma RestyledOf(sub: string -> string, text: string, idx: seq<int>, utf16: bool, parts: seq<string>, rest: string)
    requires |idx| >= 2 && parts == Chunks(sub, text, idx, utf16, |idx| - 1)
    requires rest == text[Pos(text, idx[|idx| - 1], utf16)..]
    ensures Restyled(sub, text, idx, utf16) == Ok((Concat(parts) + rest, Starts(parts, utf16)))
  {
  }

  /** In code units, the bounds 0, 2 and 3 fall before the emoji, before "a" and before "b". */
  lemma EmojiCorrectedChunks(text: string, idx: seq<int>)
    requires text == ['\U{1F600}', 'a', 'b'] && idx == [0, 2, 3]
    ensures Chunks(AToXyz, text, idx, true, 2) == [['\U{1F600}'], ['x', 'y', 'z']]
    ensures Pos(text, idx[2], true) == 2 && text[2..] == ['b']
  {
    assert CodePoints(text, 0) == 0;
    assert CodePoints(text[1..], 0) == 0;
    assert CodePoints(text, 2) == 1;
    assert CodePoints(text[1..][1..], 0) == 0;
    assert CodePoints(text, 3) == 2;
    assert text[0..1] == ['\U{1F600}'];
    assert text[1..2] == ['a'];
    assert AToXyz(['\U{1F600}']) == ['\U{1F600}'];
    assert AToXyz(['a']) == ['x', 'y', 'z'];
  }

  /** The emoji is two code units long, so the replacement starts at 2 and the text after
      it at 5. */
  lemma EmojiCorrectedStarts(parts: seq<string>)
    requires parts == [['\U{1F600}'], ['x', 'y', 'z']]
    ensures Concat(parts) == ['\U{1F600}', 'x', 'y', 'z']
    ensures Starts(parts, true) == [0, 2, 5]
  {
    assert parts[..1] == [['\U{1F600}']];
    assert parts[..1][..0] == [] && parts[..0] == [] && parts[..2] == parts;
    assert Concat(parts[..1]) == ['\U{1F600}'];
    var e: string := ['\U{1F600}', 'x', 'y', 'z'];
    assert Concat(parts) == e;
    assert e[..3] == ['\U{1F600}', 'x', 'y'];
    assert e[..3][..2] == ['\U{1F600}', 'x'];
    assert e[..3][..2][..1] == ['\U{1F600}'];
    assert Utf16Len(['\U{1F600}']) == 2;
    assert Utf16Len(['\U{1F600}', 'x']) == 3;
    assert Utf16Len(['\U{1F600}', 'x', 'y']) == 4;
    assert Utf16Len(e) == 5;
    var starts := Starts(parts, true);
    assert starts[0] == 0 && starts[1] == 2 && starts[2] == 5;
  }

  // ---------------------------------------------------------------------------------------
  // Dictionaries and the style tables of a text object.

  /** Dictionaries with the same keys have the same keys in them. */
  lemma SameKeysHas(a: seq<Member>, b: seq<Member>, k: string)
    requires Keys(a) == Keys(b)
    ensures Has(a, k) == Has(b, k)
  {
    if Has(a, k) {
      var i :| 0 <= i < |a| && a[i].key == k;
      assert Keys(a)[i] == k;
    }
    if Has(b, k) {
      var i :| 0 <= i < |b| && b[i].key == k;
      assert Keys(b)[i] == k;
    }
  }

  /** `merge_two_dicts(x, y)`: a copy of `x` updated with each key of `y` in turn. */
  function MergeTwoDicts(x: seq<Member>, y: seq<Member>): (z: seq<Member>)
    ensures |z| >= |x|
    decreases |y|
  {
    if y == [] then x else MergeTwoDicts(SetKey(x, y[0].key, y[0].value), y[1..])
  }

  /** No key occurs twice, as in every dictionary. */
  predicate DistinctKeys(ms: seq<Member>)
  {
    forall i, j :: 0 <= i < j < |ms| ==> ms[i].key != ms[j].key
  }

  /** The merged dictionary reads a key of `y` as `y` does and any other key as `x` does. */
  lemma {:induction false} MergeTwoDictsFind(x: seq<Member>, y: seq<Member>, k: string)
    requires DistinctKeys(y)
    ensures Find(MergeTwoDicts(x, y), k) == if Has(y, k) then Find(y, k) else Find(x, k)
    decreases |y|
  {
    if y != [] {
      var x' := SetKey(x, y[0].key, y[0].value);
      assert DistinctKeys(y[1..]);
      MergeTwoDictsFind(x', y[1..], k);
      SetKeyFind(x, y[0].key, y[0].value, k);
      if k != y[0].key {
        HasTail(y, k);
      }
    }
  }

  /** Merging one key that `x` already has keeps the keys of `x` in their order. */
  lemma MergeOneKey(x: seq<Member>, k: string, v: Json)
    ensures MergeTwoDicts(x, [Member(k, v)]) == SetKey(x, k, v)
  {
    assert [Member(k, v)][1..] == [];
  }

  /** `len(x)` for the values that have one. */
  function Len(j: Json): (n: Option<nat>)
    ensures n.Some? <==> j.JList? || j.JObj? || j.JStr?
  {
    match j
    case JList(items) => Some(|items|)
    case JObj(ms) => Some(|ms|)
    case JStr(s) => Some(|s|)
    case _ => None
  }

  /** `x[key]` for a string key: KeyError for a dictionary without it, TypeError for any
      other value. */
  function Get(j: Json, key: string): (r: Result<Json>)
    ensures r.Ok? <==> j.JObj? && Has(j.members, key)
    ensures r.Ok? ==> Find(j.members, key) == Some(r.value)
    ensures r.Err? ==> r.error == (if j.JObj? then KeyError else TypeError)
  {
    if !j.JObj? then Err(TypeError)
    else
      match Find(j.members, key)
      case None => Err(KeyError)
      case Some(v) => Ok(v)
  }

  /** `x[0]` for the value under "text": a list's first item, a string's first character. */
  function First(j: Json): (r: Result<Json>)
    ensures r.Ok? <==> (j.JList? && j.items != []) || (j.JStr? && j.s != [])
  {
    match j
    case JList(items) => if items == [] then Err(IndexError) else Ok(items[0])
    case JStr(s) => if s == [] then Err(IndexError) else Ok(JStr([s[0]]))
    case JObj(_) => Err(KeyError)
    case _ => Err(TypeError)
  }

  /** `data['text'][0]`, the text of a text object. */
  function TextOf(ms: seq<Member>): Result<Json>
  {
    var t :- Get(JObj(ms), "text");
    First(t)
  }

  /** `data[style]['entries']` */
  function EntriesOf(ms: seq<Member>, style: string): Result<Json>
  {
    var table :- Get(JObj(ms), style);
    Get(table, "entries")
  }

  /** `entry['characterIndex']` of each style entry in turn. */
  function Indexes(entries: seq<Json>): (r: Result<seq<int>>)
    ensures r.Ok? ==> |r.value| == |entries|
  {
    if entries == [] then Ok([])
    else
      var front :- Indexes(entries[..|entries| - 1]);
      var v :- Get(entries[|entries| - 1], "characterIndex");
      if v.JNum? then Ok(front + [v.n]) else Err(TypeError)
  }

  /** `entry['characterIndex'] = i` for each entry and index in turn. */
  function WithIndexes(entries: seq<Json>, idx: seq<int>): (r: Result<seq<Json>>)
    requires |entries| == |idx|
    ensures r.Ok? ==> |r.value| == |entries|
    ensures r.Err? ==> r.error == TypeError
  {
    if entries == [] then Ok([])
    else
      var front :- WithIndexes(entries[..|entries| - 1], idx[..|idx| - 1]);
      var e := entries[|entries| - 1];
      if e.JObj? then Ok(front + [JObj(SetKey(e.members, "characterIndex", JNum(idx[|idx| - 1])))])
      else Err(TypeError)
  }

  /** Setting the indexes succeeds exactly when every entry is a dictionary. */
  lemma {:induction false} WithIndexesOk(entries: seq<Json>, idx: seq<int>)
    requires |entries| == |idx|
    ensures WithIndexes(entries, idx).Ok? <==> forall l :: 0 <= l < |entries| ==> entries[l].JObj?
  {
    if entries != [] {
      var n := |entries| - 1;
      var front := entries[..n];
      WithIndexesOk(front, idx[..n]);
      var w := WithIndexes(front, idx[..n]);
      assert WithIndexes(entries, idx).Ok? <==> w.Ok? && entries[n].JObj?;
      ObjectsSnoc(entries);
    }
  }

  /** Every entry is a dictionary. */
  predicate AllObjects(entries: seq<Json>)
  {
    forall l :: 0 <= l < |entries| ==> entries[l].JObj?
  }

  lemma ObjectsSnoc(entries: seq<Json>)
    requires entries != []
    ensures AllObjects(entries)
        <==> AllObjects(entries[..|entries| - 1]) && entries[|entries| - 1].JObj?
  {
    var n := |entries| - 1;
    var front := entries[..n];
    if AllObjects(front) {
      forall l | 0 <= l < n
        ensures entries[l].JObj?
      {
        assert front[l] == entries[l];
      }
    }
  }

  /** The entries then read back the indexes they were given. */
  lemma {:induction false} WithIndexesRead(entries: seq<Json>, idx: seq<int>)
    requires |entries| == |idx| && WithIndexes(entries, idx).Ok?
    ensures Indexes(WithIndexes(entries, idx).value) == Ok(idx)
  {
    if entries != [] {
      var n := |entries| - 1;
      WithIndexesRead(entries[..n], idx[..n]);
      var e := entries[n];
      SetKeyFind(e.members, "characterIndex", JNum(idx[n]), "characterIndex");
      var front := WithIndexes(entries[..n], idx[..n]).value;
      var last := JObj(SetKey(e.members, "characterIndex", JNum(idx[n])));
      assert WithIndexes(entries, idx).value == front + [last];
      assert (front + [last])[..n] == front;
      assert Get(last, "characterIndex") == Ok(JNum(idx[n]));
      assert idx[..n] + [idx[n]] == idx;
    }
  }

  /** `correct_multiline_replacement`: every paragraph-style entry moves to the start of its
      paragraph. The offsets are `NewParagraphOffsets` of the text; a text whose paragraphs
      do not match the entries one to one raises NotImplementedError. */
  function CorrectMultiline(ms: seq<Member>): (r: Result<seq<Member>>)
    ensures r.Ok? ==> Keys(r.value) == Keys(ms)
  {
    var text :- TextOf(ms);
    if !text.JStr? then Err(TypeError)
    else
      var offsets := ParagraphOffsets(text.s);
      var entries :- EntriesOf(ms, "tableParaStyle");
      var n := Len(entries);
      if n.None? then Err(TypeError)
      else if n.value != |offsets| then Err(NotImplementedError)
      else if !entries.JList? then Err(TypeError)
      else
        var es :- WithIndexes(entries.items, offsets);
        var table := Get(JObj(ms), "tableParaStyle").value;
        Ok(SetKey(ms, "tableParaStyle", JObj(SetKey(table.members, "entries", JList(es)))))
  }

  /** The indexes of a style table of a text object, read back. */
  function StyleIndexes(ms: seq<Member>, style: string): Result<seq<int>>
  {
    var entries :- EntriesOf(ms, style);
    if entries.JList? then Indexes(entries.items) else Err(TypeError)
  }

  /** After the correction the text is unchanged and its paragraph-style entries read back
      the start of each paragraph in UTF-16 code units; with a string text and a list of
      entries, NotImplementedError comes exactly from a count that differs from the number
      of paragraphs. */
  lemma MultilineOffsets(ms: seq<Member>)
    ensures CorrectMultiline(ms).Ok? ==>
              && TextOf(CorrectMultiline(ms).value) == TextOf(ms)
              && StyleIndexes(CorrectMultiline(ms).value, "tableParaStyle") == Ok(ParagraphOffsets(TextOf(ms).value.s))
    ensures TextOf(ms).Ok? && TextOf(ms).value.JStr? && EntriesOf(ms, "tableParaStyle").Ok?
            && EntriesOf(ms, "tableParaStyle").value.JList? ==>
              (CorrectMultiline(ms) == Err(NotImplementedError) <==>
                 |EntriesOf(ms, "tableParaStyle").value.items| != |ParagraphOffsets(TextOf(ms).value.s)|)
  {
    var r := CorrectMultiline(ms);
    if r.Ok? {
      var text := TextOf(ms).value;
      var offsets := ParagraphOffsets(text.s);
      var entries := EntriesOf(ms, "tableParaStyle").value;
      var table := Get(JObj(ms), "tableParaStyle").value;
      var es := WithIndexes(entries.items, offsets).value;
      WithIndexesRead(entries.items, offsets);
      assert Len(entries) == Some(|entries.items|);
      var table' := SetKey(table.members, "entries", JList(es));
      SetKeyFind(ms, "tableParaStyle", JObj(table'), "text");
      SetKeyFind(table.members, "entries", JList(es), "entries");
      assert Get(JObj(r.value), "tableParaStyle") == Ok(JObj(table'));
      assert EntriesOf(r.value, "tableParaStyle") == Ok(JList(es));
    } else if TextOf(ms).Ok? && TextOf(ms).value.JStr? && EntriesOf(ms, "tableParaStyle").Ok? {
      var entries := EntriesOf(ms, "tableParaStyle").value;
      if entries.JList? {
        assert Len(entries) == Some(|entries.items|);
      }
    }
  }

  // ---------------------------------------------------------------------------------------
  // The walk along the key path.

  /** What `on_replace` is told: a leaf string and what it became. */
  datatype Change = Change(before: string, after: string)

  /** Every change reported is a real one, made by the substitution. */
  predicate Genuine(sub: string -> string, log: seq<Change>)
  {
    forall c :: c in log ==> c.after == sub(c.before) && c.before != c.after
  }

  /** What `for obj in data` iterates over: a list's items, a dictionary's keys, a string's
      characters; any other value raises TypeError. */
  function Elements(data: Json): (r: Result<seq<Json>>)
    ensures r.Ok? <==> data.JList? || data.JObj? || data.JStr?
    ensures data.JList? ==> r == Ok(data.items)
  {
    match data
    case JList(items) => Ok(items)
    case JObj(ms) => Ok(seq(|ms|, i requires 0 <= i < |ms| => JStr(ms[i].key)))
    case JStr(s) => Ok(seq(|s|, i requires 0 <= i < |s| => JStr([s[i]])))
    case _ => Err(TypeError)
  }

  /** `key in data`: a dictionary's key, a list's item, a substring of a string; any other
      value raises TypeError. */
  function In(key: string, data: Json): (r: Result<bool>)
    ensures r.Ok? <==> data.JList? || data.JObj? || data.JStr?
    ensures data.JObj? ==> r == Ok(Has(data.members, key))
  {
    match data
    case JObj(ms) => Ok(Has(ms, key))
    case JList(items) => Ok(JStr(key) in items)
    case JStr(s) => Ok(Text.Contains(s, key))
    case _ => Err(TypeError)
  }

  /** `perform_on(data, depth)` with `path` the key path from `depth` on. An empty path
      substitutes in a leaf string and reports it if it changed; "[]" maps the rest of the
      path over the items; a key that the value lacks leaves the value as it is; "text"
      restyles the text object after the substitution; any other key is followed and its
      new value merged back in. The result is the new value and the changes reported, in
      the order `on_replace` is called. */
  function PerformOn(sub: string -> string, data: Json, path: seq<string>): (r: Result<(Json, seq<Change>)>)
    ensures r.Ok? ==> Genuine(sub, r.value.1)
    ensures path == [] ==> (r.Ok? <==> data.JStr?)
    ensures r.Ok? && path != [] && path[0] == "[]" ==>
              r.value.0.JList? && (data.JList? ==> |r.value.0.items| == |data.items|)
    ensures r.Ok? && data.JObj? && path != [] && path[0] != "[]" ==>
              r.value.0.JObj? && Keys(r.value.0.members) == Keys(data.members)
    ensures data.JObj? && path != [] && path[0] != "[]" && !Has(data.members, path[0]) ==>
              r == Ok((data, []))
    ensures (data.JNull? || data.JBool? || data.JNum?) ==> r == Err(TypeError)
    decreases |path|, 2, 0
  {
    if path == [] then
      if data.JStr? then
        var after := sub(data.s);
        Ok((JStr(after), if after == data.s then [] else [Change(data.s, after)]))
      else Err(TypeError)
    else if path[0] == "[]" then
      var xs :- Elements(data);
      var out :- PerformOnAll(sub, xs, path[1..]);
      Ok((JList(out.0), out.1))
    else
      var present :- In(path[0], data);
      if !present then Ok((data, []))
      else if !data.JObj? then Err(TypeError)
      else if path[0] == "text" then
        var out :- CorrectCharstyle(sub, data.members, path);
        var restyled :- CorrectMultiline(out.0);
        Ok((JObj(restyled), out.1))
      else
        var child := Find(data.members, path[0]).value;
        var out :- PerformOn(sub, child, path[1..]);
        MergeOneKey(data.members, path[0], out.0);
        Ok((JObj(MergeTwoDicts(data.members, [Member(path[0], out.0)])), out.1))
  }

  /** `[perform_on(obj, depth + 1) for obj in data]` */
  function PerformOnAll(sub: string -> string, xs: seq<Json>, path: seq<string>): (r: Result<(seq<Json>, seq<Change>)>)
    ensures r.Ok? ==> |r.value.0| == |xs| && Genuine(sub, r.value.1)
    decreases |path|, 3, |xs|
  {
    if xs == [] then Ok(([], []))
    else
      var front :- PerformOnAll(sub, xs[..|xs| - 1], path);
      var last :- PerformOn(sub, xs[|xs| - 1], path);
      Ok((front.0 + [last.0], front.1 + last.1))
  }

  /** `correct_charstyle_replacement(data, key_path, depth)`. Without character styles, or
      with exactly one, the walk goes on into `data[key]`. Otherwise each run between two
      style entries is substituted on its own (`CharStyle`), the text's first item and the
      entries' indexes are replaced, and nothing is reported. */
  function CorrectCharstyle(sub: string -> string, ms: seq<Member>, path: seq<string>): (r: Result<(seq<Member>, seq<Change>)>)
    requires path != []
    ensures r.Ok? ==> Keys(r.value.0) == Keys(ms) && Genuine(sub, r.value.1)
    decreases |path|, 1, 0
  {
    var t :- Get(JObj(ms), "text");
    var text :- First(t);
    var n: Option<nat> :- if !Has(ms, "tableCharStyle") then Ok(None) else
      var entries :- EntriesOf(ms, "tableCharStyle");
      var len := Len(entries);
      if len.None? then Err(TypeError) else Ok(if len.value == 1 then None else Some(len.value));
    if n.None? then
      var child :- Get(JObj(ms), path[0]);
      var out :- PerformOn(sub, child, path[1..]);
      MergeOneKey(ms, path[0], out.0);
      Ok((MergeTwoDicts(ms, [Member(path[0], out.0)]), out.1))
    else
      var table := Get(JObj(ms), "tableCharStyle").value;
      var ms' :- Restyle(sub, ms, t, text, table.members, EntriesOf(ms, "tableCharStyle").value);
      Ok((ms', []))
  }

  /** The branch of `correct_charstyle_replacement` for several character styles, on the
      text object `ms`, its "text" value `t`, the text `text` (`t[0]`), its character-style
      table and that table's entries. */
  function Restyle(sub: string -> string, ms: seq<Member>, t: Json, text: Json, table: seq<Member>, entries: Json): (r: Result<seq<Member>>)
    requires First(t) == Ok(text) && Has(ms, "text") && Has(ms, "tableCharStyle") && Has(table, "entries")
    ensures r.Ok? ==> Keys(r.value) == Keys(ms)
  {
    if !entries.JList? then Err(TypeError)
    else
      var idx :- Indexes(entries.items);
      if |idx| < 2 then Err(IndexError)
      else if !text.JStr? || !t.JList? then Err(TypeError)
      else
        var restyled := CharStyle(sub, text.s, idx).value;
        var es :- WithIndexes(entries.items, restyled.1);
        var ms' := SetKey(ms, "text", JList([JStr(restyled.0)] + t.items[1..]));
        SameKeysHas(ms, ms', "tableCharStyle");
        Ok(SetKey(ms', "tableCharStyle", JObj(SetKey(table, "entries", JList(es)))))
  }

  /** With several character styles, the correction reports nothing, the text becomes the
      restyled text and the entries read back the new starts: each the UTF-16 length of the
      substituted runs before it. */
  lemma CharstyleEntries(sub: string -> string, ms: seq<Member>, path: seq<string>)
    requires path != []
    ensures var r := CorrectCharstyle(sub, ms, path);
            var entries := EntriesOf(ms, "tableCharStyle");
            r.Ok? && entries.Ok? && Len(entries.value) != Some(1) ==>
              && r.value.1 == []
              && TextOf(ms).Ok? && TextOf(ms).value.JStr?
              && StyleIndexes(ms, "tableCharStyle").Ok?
              && |StyleIndexes(ms, "tableCharStyle").value| >= 2
              && var styled := CharStyle(sub, TextOf(ms).value.s, StyleIndexes(ms, "tableCharStyle").value).value;
                 && TextOf(r.value.0) == Ok(JStr(styled.0))
                 && StyleIndexes(r.value.0, "tableCharStyle") == Ok(styled.1)
  {
    var r := CorrectCharstyle(sub, ms, path);
    var entries := EntriesOf(ms, "tableCharStyle");
    if r.Ok? && entries.Ok? && Len(entries.value) != Some(1) {
      var t := Get(JObj(ms), "text").value;
      var table := Get(JObj(ms), "tableCharStyle").value;
      assert r == Ok((Restyle(sub, ms, t, First(t).value, table.members, entries.value).value, []));
      RestyleEntries(sub, ms, t, First(t).value, table.members, entries.value);
    }
  }

  /** What `Restyle` leaves in the text object. */
  lemma RestyleEntries(sub: string -> string, ms: seq<Member>, t: Json, text: Json, table: seq<Member>, entries: Json)
    requires Get(JObj(ms), "text") == Ok(t) && First(t) == Ok(text)
    requires Get(JObj(ms), "tableCharStyle") == Ok(JObj(table)) && Get(JObj(table), "entries") == Ok(entries)
    ensures var r := Restyle(sub, ms, t, text, table, entries);
            r.Ok? ==>
              && text.JStr? && entries.JList? && Indexes(entries.items).Ok?
              && |Indexes(entries.items).value| >= 2
              && var styled := CharStyle(sub, text.s, Indexes(entries.items).value).value;
                 && TextOf(r.value) == Ok(JStr(styled.0))
                 && StyleIndexes(r.value, "tableCharStyle") == Ok(styled.1)
  {
    var r := Restyle(sub, ms, t, text, table, entries);
    if r.Ok? {
      var idx := Indexes(entries.items).value;
      var styled := CharStyle(sub, text.s, idx).value;
      var es := WithIndexes(entries.items, styled.1).value;
      WithIndexesRead(entries.items, styled.1);
      var x := JList([JStr(styled.0)] + t.items[1..]);
      assert r.value == SetKey(SetKey(ms, "text", x), "tableCharStyle", JObj(SetKey(table, "entries", JList(es))));
      SetTextAndEntries(ms, x, table, es);
    }
  }

  /** Setting the text and then a style table's entries reads both back. */
  lemma SetTextAndEntries(ms: seq<Member>, x: Json, table: seq<Member>, es: seq<Json>)
    ensures var ms2 := SetKey(SetKey(ms, "text", x), "tableCharStyle", JObj(SetKey(table, "entries", JList(es))));
            TextOf(ms2) == First(x) && StyleIndexes(ms2, "tableCharStyle") == Indexes(es)
  {
    var ms' := SetKey(ms, "text", x);
    var table' := SetKey(table, "entries", JList(es));
    SetKeyFind(ms, "text", x, "tableCharStyle");
    SetKeyFind(ms', "tableCharStyle", JObj(table'), "text");
    SetKeyFind(table, "entries", JList(es), "entries");
  }

  /** A text object with two paragraphs, "a" and "b", and no character styles. */
  function TwoParagraphs(): seq<Member>
  {
    [ Member("text", JList([JStr(['a', '\n', 'b'])])),
      Member("tableParaStyle", JObj([Member("entries", JList([
        JObj([Member("characterIndex", JNum(0))]),
        JObj([Member("characterIndex", JNum(2))])]))])) ]
  }

  /** Replacing "a" by "xyz" along "text.[]" reports the one change and moves the second
      paragraph style to code unit 4, just after the newline. */
  lemma TwoParagraphsExample()
    ensures var r := PerformOn(AToXyz, JObj(TwoParagraphs()), ["text", "[]"]);
            && r.Ok? && r.value.0.JObj?
            && r.value.1 == [Change(['a', '\n', 'b'], ['x', 'y', 'z', '\n', 'b'])]
            && TextOf(r.value.0.members) == Ok(JStr(['x', 'y', 'z', '\n', 'b']))
            && StyleIndexes(r.value.0.members, "tableParaStyle") == Ok([0, 4])
  {
    var ms := TwoParagraphs();
    var after: string := ['x', 'y', 'z', '\n', 'b'];
    var ms' := SetKey(ms, "text", JList([JStr(after)]));
    TwoParagraphsWalk();
    TwoParagraphsOffsets(ms');
    assert ms[0].key == "text";
    MultilineOffsets(ms');
  }

  /** The walk into "text": the one paragraph text is substituted and reported. */
  lemma TwoParagraphsWalk()
    ensures CorrectCharstyle(AToXyz, TwoParagraphs(), ["text", "[]"])
         == Ok((SetKey(TwoParagraphs(), "text", JList([JStr(['x', 'y', 'z', '\n', 'b'])])),
                [Change(['a', '\n', 'b'], ['x', 'y', 'z', '\n', 'b'])]))
  {
    var ms := TwoParagraphs();
    var before: string := ['a', '\n', 'b'];
    var after: string := ['x', 'y', 'z', '\n', 'b'];
    AToXyzExample();
    assert ms[0].key == "text";
    assert Find(ms, "tableCharStyle") == None;
    var all := PerformOnAll(AToXyz, [JStr(before)], []);
    assert [JStr(before)][..0] == [];
    assert PerformOnAll(AToXyz, [], []) == Ok(([], []));
    assert [] + [JStr(after)] == [JStr(after)] && [] + [Change(before, after)] == [Change(before, after)];
    assert all == Ok(([JStr(after)], [Change(before, after)]));
    var child := PerformOn(AToXyz, JList([JStr(before)]), ["[]"]);
    assert ["[]"][1..] == [];
    assert child == Ok((JList([JStr(after)]), [Change(before, after)]));
    assert ["text", "[]"][1..] == ["[]"];
    MergeOneKey(ms, "text", JList([JStr(after)]));
  }

  lemma AToXyzExample()
    ensures AToXyz(['a', '\n', 'b']) == ['x', 'y', 'z', '\n', 'b']
  {
    Text.ReplaceAllPrefix("a", ['\n', 'b'], "xyz");
    assert ['a', '\n', 'b'] == "a" + ['\n', 'b'];
    Text.ReplaceAllAbsent(['\n', 'b'], "a", "xyz");
  }

  /** "xyz\nb" has paragraphs at code units 0 and 4. */
  lemma XyzOffsets(after: string)
    requires after == ['x', 'y', 'z', '\n', 'b']
    ensures ParagraphOffsets(after) == [0, 4]
  {
    var p4: string := ['x', 'y', 'z', '\n'];
    var p3: string := ['x', 'y', 'z'];
    var p2: string := ['x', 'y'];
    var p1: string := ['x'];
    assert after[..4] == p4 && p4[..3] == p3 && p3[..2] == p2 && p2[..1] == p1 && p1[..0] == [];
    assert ParagraphOffsets(p1) == [0];
    assert ParagraphOffsets(p2) == [0];
    assert ParagraphOffsets(p3) == [0];
    Utf16LenBmp(p4);
    assert ParagraphOffsets(p4) == [0, 4];
  }

  /** The substituted text object: its text and its two paragraph-style entries. */
  lemma TwoParagraphsOffsets(ms': seq<Member>)
    requires ms' == SetKey(TwoParagraphs(), "text", JList([JStr(['x', 'y', 'z', '\n', 'b'])]))
    ensures TextOf(ms') == Ok(JStr(['x', 'y', 'z', '\n', 'b']))
    ensures ParagraphOffsets(['x', 'y', 'z', '\n', 'b']) == [0, 4]
    ensures CorrectMultiline(ms').Ok?
  {
    var ms := TwoParagraphs();
    var after: string := ['x', 'y', 'z', '\n', 'b'];
    assert ms' == [Member("text", JList([JStr(after)])), ms[1]];
    XyzOffsets(after);
    var table := ms[1].value;
    assert ms'[1..] == [ms[1]];
    assert Find(ms', "tableParaStyle") == Some(table);
    var items := [JObj([Member("characterIndex", JNum(0))]), JObj([Member("characterIndex", JNum(2))])];
    assert table == JObj([Member("entries", JList(items))]);
    assert Find(table.members, "entries") == Some(JList(items));
    assert EntriesOf(ms', "tableParaStyle") == Ok(JList(items));
    WithIndexesOk(items, [0, 4]);
  }
}
