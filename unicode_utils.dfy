/** UTF-16 surrogate pairs in escaped YAML text (keynote_parser/unicode_utils.py).
    Python 2 writes an astral character as two escapes `\uHHHH\uLLLL`, Python 3 as one escape
    `\UXXXXXXXX`; the two rewriting passes convert the text between the forms, following
    sections 2.1 and 2.2 of RFC 2781. */
module UnicodeUtils {
  import opened Outcomes
  import opened Text

  predicate IsHighSurrogate(u: int) { 0xD800 <= u <= 0xDBFF }

  predicate IsLowSurrogate(u: int) { 0xDC00 <= u <= 0xDFFF }

  predicate IsAstral(c: int) { 0x10000 <= c <= 0x10FFFF }

  /** Section 2.2 of RFC 2781: the code point a high/low pair of 16-bit units stands for. */
  function PairValue(high: int, low: int): int
  {
    (high - 0xD800) * 0x400 + (low - 0xDC00) + 0x10000
  }

  /** `from_surrogate_pair` as written, on the two escapes' values: the pair's value when it
      is positive, and nothing (None) otherwise, whether or not the units are surrogates. */
  function FromSurrogatePair(high: nat, low: nat): (r: Option<nat>)
    ensures r.Some? ==> r.value > 0
    ensures IsHighSurrogate(high) && IsLowSurrogate(low) ==> r.Some? && IsAstral(r.value)
  {
    var value := PairValue(high, low);
    if value > 0 then Some(value) else None
  }

  /** `from_surrogate_pair` as section 2.2 of RFC 2781 defines it: only a high surrogate
      followed by a low surrogate makes a character. */
  function FromSurrogatePairStrict(high: nat, low: nat): (r: Option<nat>)
    ensures r.Some? <==> IsHighSurrogate(high) && IsLowSurrogate(low)
    ensures r.Some? ==> IsAstral(r.value) && FromSurrogatePair(high, low) == r
  {
    if IsHighSurrogate(high) && IsLowSurrogate(low) then Some(PairValue(high, low)) else None
  }

  /** Python's `int(a / b)` for b > 0: the quotient truncated toward zero. */
  function TruncDiv(a: int, b: int): (q: int)
    requires b > 0
    ensures a >= 0 ==> q == a / b
    ensures a < 0 ==> q <= 0 && -q == (-a) / b
  {
    if a >= 0 then a / b else -((-a) / b)
  }

  /** `to_surrogate_pair` on the escape's value: high = int((c - 0x10000) / 0x400) + 0xD800 and
      low = (c - 0x10000) % 0x400 + 0xDC00 (Python's floored remainder, never negative). */
  function ToSurrogatePair(c: nat): (r: (nat, nat))
    requires c < Pow16(8)
    ensures IsAstral(c) ==> IsHighSurrogate(r.0) && IsLowSurrogate(r.1)
    ensures IsLowSurrogate(r.1)
  {
    (TruncDiv(c - 0x10000, 0x400) + 0xD800, (c - 0x10000) % 0x400 + 0xDC00)
  }

  /** Section 2.1 then 2.2 of RFC 2781: an astral character survives the split into a
      pair. */
  lemma SplitThenJoin(c: nat)
    requires IsAstral(c)
    ensures c < Pow16(8)
    ensures FromSurrogatePair(ToSurrogatePair(c).0, ToSurrogatePair(c).1) == Some(c)
    ensures FromSurrogatePairStrict(ToSurrogatePair(c).0, ToSurrogatePair(c).1) == Some(c)
  {
    Pow16Eight();
    var d := c - 0x10000;
    assert d == (d / 0x400) * 0x400 + d % 0x400;
  }

  /** Section 2.2 then 2.1 of RFC 2781: every surrogate pair comes back from its character. */
  lemma JoinThenSplit(high: nat, low: nat)
    requires IsHighSurrogate(high) && IsLowSurrogate(low)
    ensures PairValue(high, low) < Pow16(8)
    ensures ToSurrogatePair(PairValue(high, low)) == (high, low)
  {
    Pow16Eight();
    var d := PairValue(high, low) - 0x10000;
    assert d == (high - 0xD800) * 0x400 + (low - 0xDC00);
    DivModUnique(d, high - 0xD800, low - 0xDC00);
  }

  lemma DivModUnique(d: int, q: int, r: int)
    requires 0 <= r < 0x400 && d == q * 0x400 + r
    ensures d / 0x400 == q && d % 0x400 == r
  {
  }

  lemma Pow16Eight()
    ensures Pow16(4) == 0x1_0000 && Pow16(8) == 0x1_0000_0000
  {
    Pow16Add(4, 4);
  }

  // ---- the escaped forms ----

  /** `\u` followed by four hex digits at `i`, then `\u` and four more. */
  predicate PairEscapeAt(s: string, i: nat)
  {
    i + 12 <= |s| && s[i] == '\\' && s[i + 1] == 'u' && AllHex(s[i + 2..i + 6])
    && s[i + 6] == '\\' && s[i + 7] == 'u' && AllHex(s[i + 8..i + 12])
  }

  /** `PY2_SURROGATE_PAIR_RE.findall(s[i..])`: the digit groups of each `\uHHHH\uLLLL`, found
      left to right without overlap. */
  function PairEscapes(s: string, i: nat): (r: seq<(string, string)>)
    ensures forall k :: 0 <= k < |r| ==>
      |r[k].0| == 4 && AllHex(r[k].0) && |r[k].1| == 4 && AllHex(r[k].1)
    decreases |s| - i
  {
    if i + 12 > |s| then []
    else if PairEscapeAt(s, i) then [(s[i + 2..i + 6], s[i + 8..i + 12])] + PairEscapes(s, i + 12)
    else PairEscapes(s, i + 1)
  }

  /** `\U` followed by eight hex digits at `i`. */
  predicate WideEscapeAt(s: string, i: nat)
  {
    i + 10 <= |s| && s[i] == '\\' && s[i + 1] == 'U' && AllHex(s[i + 2..i + 10])
  }

  /** `PY3_MULTIBYTE_RE.findall(s[i..])`: the digits of each `\UXXXXXXXX`. */
  function WideEscapes(s: string, i: nat): (r: seq<string>)
    ensures forall k :: 0 <= k < |r| ==> |r[k]| == 8 && AllHex(r[k])
    decreases |s| - i
  {
    if i + 10 > |s| then []
    else if WideEscapeAt(s, i) then [s[i + 2..i + 10]] + WideEscapes(s, i + 10)
    else WideEscapes(s, i + 1)
  }

  /** The Python 2 form of an astral character: its two surrogates, `%04x` each. */
  function Py2Escape(c: nat): (e: string)
    requires IsAstral(c)
    ensures |e| == 12 && PairEscapeAt(e, 0)
  {
    Pow16Eight();
    var (high, low) := ToSurrogatePair(c);
    "\\u" + HexDigits(high, 4) + "\\u" + HexDigits(low, 4)
  }

  /** The Python 3 form of a character: `\U` and `%08x` of the code point. */
  function Py3Escape(c: nat): (e: string)
    requires c < Pow16(8)
    ensures |e| == 10 && WideEscapeAt(e, 0)
  {
    "\\U" + HexDigits(c, 8)
  }

  // ---- to_py3_compatible ----

  /** One turn of `to_py3_compatible`'s loop for the groups (h, l): when the pair decodes, both
      `\uh\ul` and `\Uh\Ul` are replaced throughout by the character's `\U` escape. `strict`
      selects the decoding that accepts surrogate pairs only. */
  function Py3Step(s: string, h: string, l: string, strict: bool): (r: string)
    requires AllHex(h) && AllHex(l)
  {
    var high, low := HexValue(h), HexValue(l);
    var character := if strict then FromSurrogatePairStrict(high, low) else FromSurrogatePair(high, low);
    if character.None? then s
    else
      var wide := "\\U" + PaddedHex(character.value, 8);
      ReplaceAll(ReplaceAll(s, "\\u" + h + "\\u" + l, wide), "\\U" + h + "\\U" + l, wide)
  }

  /** The loop's text after the given groups, in order. */
  function Py3Fold(s: string, pairs: seq<(string, string)>, strict: bool): string
    requires forall k :: 0 <= k < |pairs| ==> AllHex(pairs[k].0) && AllHex(pairs[k].1)
  {
    if pairs == [] then s
    else
      var last := pairs[|pairs| - 1];
      Py3Step(Py3Fold(s, pairs[..|pairs| - 1], strict), last.0, last.1, strict)
  }

  /** `to_py3_compatible` as written: the groups are found once in the input, then each pair
      with a positive value is rewritten. */
  function Py3CompatibleAsWritten(input: string): string
  {
    Py3Fold(input, PairEscapes(input, 0), false)
  }

  /** `to_py3_compatible` rewriting surrogate pairs only. */
  function Py3Compatible(input: string): string
  {
    Py3Fold(input, PairEscapes(input, 0), true)
  }

  /** `to_py3_compatible`, rewriting surrogate pairs only. */
  method ToPy3Compatible(input: string) returns (output: string)
    ensures output == Py3Compatible(input)
  {
    var pairs := PairEscapes(input, 0);
    output := input;
    var i := 0;
    while i < |pairs|
      invariant 0 <= i <= |pairs|
      invariant output == Py3Fold(input, pairs[..i], true)
    {
      var (high, low) := pairs[i];
      assert pairs[..i + 1][..i] == pairs[..i];
      output := Py3Step(output, high, low, true);
      i := i + 1;
    }
    assert pairs[..i] == pairs;
  }

  /** Text whose escape pairs are none of them surrogate pairs comes back unchanged. */
  lemma {:induction false} Py3FoldKeeps(s: string, pairs: seq<(string, string)>)
    requires forall k :: 0 <= k < |pairs| ==> AllHex(pairs[k].0) && AllHex(pairs[k].1)
    requires forall k :: 0 <= k < |pairs| ==>
      !(IsHighSurrogate(HexValue(pairs[k].0)) && IsLowSurrogate(HexValue(pairs[k].1)))
    ensures Py3Fold(s, pairs, true) == s
  {
    if pairs != [] {
      Py3FoldKeeps(s, pairs[..|pairs| - 1]);
    }
  }

  /** The intended promise of `to_py3_compatible`: text without a surrogate escape pair is
      returned as it is. */
  lemma Py3CompatibleLeavesNonSurrogates(input: string)
    requires forall k :: 0 <= k < |PairEscapes(input, 0)| ==>
      var p := PairEscapes(input, 0)[k];
      !(IsHighSurrogate(HexValue(p.0)) && IsLowSurrogate(HexValue(p.1)))
    ensures Py3Compatible(input) == input
  {
    Py3FoldKeeps(input, PairEscapes(input, 0));
  }

  /** An escape pair at the front of the text is the first group found. */
  lemma PairEscapesFront(h: string, l: string, rest: string)
    requires |h| == 4 && AllHex(h) && |l| == 4 && AllHex(l)
    ensures var s := "\\u" + h + "\\u" + l + rest;
      PairEscapes(s, 0) == [(h, l)] + PairEscapes(s, 12)
  {
    var s := "\\u" + h + "\\u" + l + rest;
    assert s[2..6] == h && s[8..12] == l;
    assert s[0] == '\\' && s[1] == 'u' && s[6] == '\\' && s[7] == 'u';
    assert PairEscapeAt(s, 0);
  }

  lemma Py3FoldOne(s: string, h: string, l: string, strict: bool)
    requires AllHex(h) && AllHex(l)
    ensures Py3Fold(s, [(h, l)], strict) == Py3Step(s, h, l, strict)
  {
    assert [(h, l)][..0] == [];
  }

  /** Replacing a whole text by `t` gives `t`. */
  lemma ReplaceAllWhole(s: string, t: string)
    requires |s| > 0
    ensures ReplaceAll(s, s, t) == t
  {
    ReplaceAllPrefix(s, "", t);
    assert s + "" == s && t + "" == t;
  }

  /** A text as long as the pattern but different from it is left as it is. */
  lemma ReplaceAllOther(s: string, p: string, t: string)
    requires |p| > 0 && |s| == |p| && s != p
    ensures ReplaceAll(s, p, t) == s
  {
    assert s[..|p|] == s;
    assert s == [s[0]] + s[1..];
  }

  /** A Python 2 surrogate escape becomes the character's Python 3 escape. */
  lemma Py3OfPy2Escape(c: nat)
    requires IsAstral(c)
    ensures Py3Compatible(Py2Escape(c)) == Py3Escape(c)
    ensures Py3CompatibleAsWritten(Py2Escape(c)) == Py3Escape(c)
  {
    Pow16Eight();
    var (high, low) := ToSurrogatePair(c);
    var h, l := HexDigits(high, 4), HexDigits(low, 4);
    var s := Py2Escape(c);
    PairEscapesFront(h, l, "");
    assert s == "\\u" + h + "\\u" + l + "";
    HexValueOfHexDigits(high, 4);
    HexValueOfHexDigits(low, 4);
    SplitThenJoin(c);
    var wide := Py3Escape(c);
    assert PaddedHex(c, 8) == HexDigits(c, 8);
    ReplaceAllWhole(s, wide);
    Py3FoldOne(s, h, l, true);
    Py3FoldOne(s, h, l, false);
  }

  /** The regional indicator C: `\ud83c\udde8` and `\U0001f1e8` are its two forms. */
  lemma RegionalIndicatorExample()
    ensures Py3Compatible("\\ud83c\\udde8") == "\\U0001f1e8"
    ensures Py2Compatible("\\U0001f1e8") == "\\ud83c\\udde8"
  {
    RegionalIndicatorForms();
    Py3OfPy2Escape(0x1F1E8);
    Py2OfPy3Escape(0x1F1E8);
  }

  lemma RegionalIndicatorForms()
    ensures Py2Escape(0x1F1E8) == "\\ud83c\\udde8"
    ensures Pow16(8) > 0x1F1E8 && Py3Escape(0x1F1E8) == "\\U0001f1e8"
  {
    Py2Form();
    Py3Form();
  }

  lemma Py2Form()
    ensures Py2Escape(0x1F1E8) == "\\ud83c\\udde8"
  {
    Pow16Eight();
    ExampleSplit();
    HighForm();
    LowForm();
    var h, l := HexDigits(0xD83C, 4), HexDigits(0xDDE8, 4);
    assert Py2Escape(0x1F1E8) == "\\u" + h + "\\u" + l;
    assert "\\u" + "d83c" + "\\u" + "dde8" == "\\ud83c\\udde8";
  }

  lemma Py3Form()
    ensures Pow16(8) > 0x1F1E8 && Py3Escape(0x1F1E8) == "\\U0001f1e8"
  {
    Pow16Eight();
    WideForm();
    WideJoined();
    EscapeOf(0x1F1E8, "0001f1e8", "\\U0001f1e8");
  }

  lemma WideJoined()
    ensures "\\U" + "0001f1e8" == "\\U0001f1e8"
  {
  }

  /** `Py3Escape` of a character whose `%08x` digits are known. */
  lemma EscapeOf(c: nat, digits: string, escape: string)
    requires c < Pow16(8) && HexDigits(c, 8) == digits && escape == "\\U" + digits
    ensures Py3Escape(c) == escape
  {
  }

  lemma ExampleSplit()
    ensures ToSurrogatePair(0x1F1E8) == (0xD83C, 0xDDE8)
  {
    Pow16Eight();
    assert TruncDiv(0xF1E8, 0x400) == 0x3C;
  }

  lemma HighForm()
    ensures HexDigits(0xD83C, 4) == "d83c"
  {
    HexDigitsSnoc(0xD, 0, "", 'd');
    HexDigitsSnoc(0xD8, 1, "d", '8');
    HexDigitsSnoc(0xD83, 2, "d8", '3');
    HexDigitsSnoc(0xD83C, 3, "d83", 'c');
  }

  lemma LowForm()
    ensures HexDigits(0xDDE8, 4) == "dde8"
  {
    HexDigitsSnoc(0xD, 0, "", 'd');
    HexDigitsSnoc(0xDD, 1, "d", 'd');
    HexDigitsSnoc(0xDDE, 2, "dd", 'e');
    HexDigitsSnoc(0xDDE8, 3, "dde", '8');
  }

  lemma LeadingZeros()
    ensures HexDigits(0, 1) == "0" && HexDigits(0, 2) == "00" && HexDigits(0, 3) == "000"
  {
    HexDigitsSnoc(0, 0, "", '0');
    HexDigitsSnoc(0, 1, "0", '0');
    HexDigitsSnoc(0, 2, "00", '0');
  }

  lemma WideForm()
    ensures HexDigits(0x1F1E8, 8) == "0001f1e8"
  {
    LeadingZeros();
    HexDigitsSnoc(0x1, 3, "000", '1');
    HexDigitsSnoc(0x1F, 4, "0001", 'f');
    HexDigitsSnoc(0x1F1, 5, "0001f", '1');
    HexDigitsSnoc(0x1F1E, 6, "0001f1", 'e');
    HexDigitsSnoc(0x1F1E8, 7, "0001f1e", '8');
  }

  /** `%08x` of 10499100 (0xA0341C). */
  lemma GermanWideForm()
    ensures HexDigits(10499100, 8) == "00a0341c"
  {
    LeadingZeros();
    HexDigitsSnoc(0xA, 2, "00", 'a');
    HexDigitsSnoc(0xA0, 3, "00a", '0');
    HexDigitsSnoc(0xA03, 4, "00a0", '3');
    HexDigitsSnoc(0xA034, 5, "00a03", '4');
    HexDigitsSnoc(0xA0341, 6, "00a034", '1');
    HexDigitsSnoc(0xA0341C, 7, "00a0341", 'c');
  }

  /** The text of the German example: an object replacement character and a left double
      quotation mark, escaped, then `."`. */
  const German: string := "\\u" + "FFFC" + "\\u" + "201C" + ".\""

  lemma GermanGroups()
    ensures PairEscapes(German, 0) == [("FFFC", "201C")]
    ensures HexValue("FFFC") == 0xFFFC && HexValue("201C") == 0x201C
  {
    PairEscapesFront("FFFC", "201C", ".\"");
    assert "FFFC"[..3] == "FFF" && "FFF"[..2] == "FF" && "FF"[..1] == "F" && "F"[..0] == "";
    assert "201C"[..3] == "201" && "201"[..2] == "20" && "20"[..1] == "2" && "2"[..0] == "";
  }

  /** As written, the German example's escapes make a positive value, 10499100, so the text is
      rewritten into a `\U00a0341c` escape although it holds no surrogate pair. */
  lemma GermanExampleAsWritten()
    ensures FromSurrogatePair(0xFFFC, 0x201C) == Some(10499100)
    ensures Py3CompatibleAsWritten(German) == "\\U00a0341c.\""
    ensures Py3CompatibleAsWritten(German) != German
  {
    GermanGroups();
    GermanDecodes();
    Py3FoldOne(German, "FFFC", "201C", false);
    GermanStep();
    assert "\\U00a0341c.\""[1] != German[1];
  }

  /** The one rewriting turn on the German example, with the value's `\U` escape. */
  lemma GermanStep()
    ensures AllHex("FFFC") && AllHex("201C")
    ensures Py3Step(German, "FFFC", "201C", false) == "\\U00a0341c.\""
  {
    GermanGroups();
    GermanDecodes();
    GermanWide();
    GermanWideShape();
    GermanReplace("\\U00a0341c");
    GermanJoined();
    StepTo(German, "FFFC", "201C", 10499100, "\\U00a0341c", "\\U00a0341c" + ".\"", "\\U00a0341c.\"");
  }

  /** A turn whose pair decodes to `value`, with the replacements' outcome known. */
  lemma StepTo(s: string, h: string, l: string, value: nat, wide: string, replaced: string, result: string)
    requires AllHex(h) && AllHex(l)
    requires FromSurrogatePair(HexValue(h), HexValue(l)) == Some(value)
    requires wide == "\\U" + PaddedHex(value, 8)
    requires ReplaceAll(ReplaceAll(s, "\\u" + h + "\\u" + l, wide), "\\U" + h + "\\U" + l, wide) == replaced
    requires replaced == result
    ensures Py3Step(s, h, l, false) == result
  {
    Py3StepRewrites(s, h, l, false, value, wide);
  }

  lemma GermanWideShape()
    ensures |"\\U00a0341c"| == 10 && "\\U00a0341c"[1] == 'U' && "\\U00a0341c"[2] == '0'
  {
  }

  lemma GermanJoined()
    ensures "\\U00a0341c" + ".\"" == "\\U00a0341c.\""
  {
  }

  lemma GermanDecodes()
    ensures AllHex("FFFC") && AllHex("201C")
    ensures FromSurrogatePair(0xFFFC, 0x201C) == Some(10499100)
    ensures FromSurrogatePair(HexValue("FFFC"), HexValue("201C")) == Some(10499100)
  {
    GermanGroups();
    assert FromSurrogatePair(0xFFFC, 0x201C) == Some(10499100);
  }

  /** `\U` and `%08x` of 10499100. */
  lemma GermanWide()
    ensures "\\U" + PaddedHex(10499100, 8) == "\\U00a0341c"
  {
    GermanPadded();
    WidePrefix(PaddedHex(10499100, 8));
  }

  lemma WidePrefix(t: string)
    requires t == "00a0341c"
    ensures "\\U" + t == "\\U00a0341c"
  {
  }

  lemma GermanPadded()
    ensures PaddedHex(10499100, 8) == "00a0341c"
  {
    Pow16Eight();
    GermanWideForm();
  }

  /** A turn whose pair decodes to `value` replaces both spellings by `value`'s `\U` escape. */
  lemma Py3StepRewrites(s: string, h: string, l: string, strict: bool, value: nat, wide: string)
    requires AllHex(h) && AllHex(l)
    requires (if strict then FromSurrogatePairStrict(HexValue(h), HexValue(l))
              else FromSurrogatePair(HexValue(h), HexValue(l))) == Some(value)
    requires wide == "\\U" + PaddedHex(value, 8)
    ensures Py3Step(s, h, l, strict) ==
              ReplaceAll(ReplaceAll(s, "\\u" + h + "\\u" + l, wide), "\\U" + h + "\\U" + l, wide)
  {
  }

  /** Replacing the pair's two spellings in the German example by `wide`. */
  lemma GermanReplace(wide: string)
    requires |wide| == 10 && wide[1] == 'U' && wide[2] == '0'
    ensures ReplaceAll(ReplaceAll(German, "\\u" + "FFFC" + "\\u" + "201C", wide), "\\U" + "FFFC" + "\\U" + "201C", wide)
            == wide + ".\""
  {
    var p := "\\uFFFC\\u201C";
    assert "\\u" + "FFFC" + "\\u" + "201C" == p;
    assert "\\U" + "FFFC" + "\\U" + "201C" == "\\UFFFC\\U201C";
    assert German == p + ".\"";
    ReplaceAllPrefix(p, ".\"", wide);
    assert ReplaceAll(".\"", p, wide) == ".\"";
    var once := wide + ".\"";
    assert |once| == 12;
    assert once[2] != "\\UFFFC\\U201C"[2];
    ReplaceAllOther(once, "\\UFFFC\\U201C", wide);
  }

  /** With surrogate pairs only, the German example is left alone. */
  lemma GermanExample()
    ensures Py3Compatible(German) == German
  {
    GermanGroups();
    Py3CompatibleLeavesNonSurrogates(German);
  }

  // ---- to_py2_compatible ----

  /** One turn of `to_py2_compatible`'s loop for the digits m: both `\um` and `\Um` are
      replaced throughout by `\uHHHH\uLLLL`, each unit written `%04x`. */
  function Py2Step(s: string, m: string): string
    requires |m| == 8 && AllHex(m)
  {
    HexValueBound(m);
    var (high, low) := ToSurrogatePair(HexValue(m));
    var pair := "\\u" + PaddedHex(high, 4) + "\\u" + PaddedHex(low, 4);
    ReplaceAll(ReplaceAll(s, "\\u" + m, pair), "\\U" + m, pair)
  }

  function Py2Fold(s: string, escapes: seq<string>): string
    requires forall k :: 0 <= k < |escapes| ==> |escapes[k]| == 8 && AllHex(escapes[k])
  {
    if escapes == [] then s
    else Py2Step(Py2Fold(s, escapes[..|escapes| - 1]), escapes[|escapes| - 1])
  }

  function Py2Compatible(input: string): string
  {
    Py2Fold(input, WideEscapes(input, 0))
  }

  /** `to_py2_compatible`: every `\UXXXXXXXX` found in the input is rewritten as a pair. */
  method ToPy2Compatible(input: string) returns (output: string)
    ensures output == Py2Compatible(input)
  {
    var escapes := WideEscapes(input, 0);
    output := input;
    var i := 0;
    while i < |escapes|
      invariant 0 <= i <= |escapes|
      invariant output == Py2Fold(input, escapes[..i])
    {
      assert escapes[..i + 1][..i] == escapes[..i];
      output := Py2Step(output, escapes[i]);
      i := i + 1;
    }
    assert escapes[..i] == escapes;
  }

  lemma WideEscapesFront(m: string)
    requires |m| == 8 && AllHex(m)
    ensures WideEscapes("\\U" + m, 0) == [m]
  {
    var s := "\\U" + m;
    assert s[2..10] == m && s[0] == '\\' && s[1] == 'U';
    assert WideEscapeAt(s, 0);
  }

  /** A Python 3 escape of an astral character becomes its Python 2 surrogate escape. */
  lemma Py2OfPy3Escape(c: nat)
    requires IsAstral(c)
    ensures c < Pow16(8)
    ensures Py2Compatible(Py3Escape(c)) == Py2Escape(c)
  {
    Pow16Eight();
    var m := HexDigits(c, 8);
    WideEscapesFront(m);
    assert Py3Escape(c) == "\\U" + m;
    assert [m][..0] == [];
    assert Py2Fold(Py3Escape(c), [m]) == Py2Step(Py2Fold(Py3Escape(c), []), m);
    assert Py2Compatible(Py3Escape(c)) == Py2Step(Py3Escape(c), m);
    Py2StepOfEscape(c);
  }

  lemma Py2StepOfEscape(c: nat)
    requires IsAstral(c)
    ensures c < Pow16(8)
    ensures Py2Step(Py3Escape(c), HexDigits(c, 8)) == Py2Escape(c)
  {
    Pow16Eight();
    var m := HexDigits(c, 8);
    var s := Py3Escape(c);
    HexValueOfHexDigits(c, 8);
    var (high, low) := ToSurrogatePair(c);
    var pair := Py2Escape(c);
    assert "\\u" + PaddedHex(high, 4) + "\\u" + PaddedHex(low, 4) == pair;
    assert s[1] != ("\\u" + m)[1];
    ReplaceAllOther(s, "\\u" + m, pair);
    ReplaceAllWhole(s, pair);
  }
}
