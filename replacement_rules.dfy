/** The key path a Keynote replacement is built with (keynote_parser/replacement.py,
    `Replacement.__init__`): the keys `perform_on` follows, one per level. */
module ReplacementRules {
  import Text

  /** `Replacement.DEFAULT_KEY_PATH`: the text of every object of every archive. */
  const DefaultKeyPath: string := "chunks.[].archives.[].objects.[].text.[]"

  /** The `key_path` a replacement is given: a dotted string or a list of keys. */
  datatype KeyPathArg = Dotted(s: string) | Steps(steps: seq<string>)

  /** The key path a replacement walks: a string is split at '.', a list is kept. A dotted
      path is one key at least, none holding a '.', and joining them gives it back. */
  function KeyPath(arg: KeyPathArg): (path: seq<string>)
    ensures arg.Dotted? ==> |path| >= 1 && Text.Join(path, '.') == arg.s
    ensures arg.Dotted? ==> forall k, j :: 0 <= k < |path| && 0 <= j < |path[k]| ==> path[k][j] != '.'
  {
    match arg
    case Dotted(s) => Text.JoinSplit(s, '.'); Text.Split(s, '.')
    case Steps(steps) => steps
  }

  /** A dotted key path is the path split at its dots. */
  lemma KeyPathDotted(s: string)
    ensures KeyPath(Dotted(s)) == Text.Split(s, '.')
  {
  }

  /** The default key path is eight keys. */
  lemma DefaultKeyPathSteps()
    ensures KeyPath(Dotted(DefaultKeyPath)) == DefaultSteps
  {
    var path := DefaultKeyPath;
    var r7 := "[]";
    var r6 := "text" + "." + r7;
    var r5 := "[]" + "." + r6;
    var r4 := "objects" + "." + r5;
    var r3 := "[]" + "." + r4;
    var r2 := "archives" + "." + r3;
    var r1 := "[]" + "." + r2;
    assert path == "chunks" + "." + r1;
    SplitChain(path, r1, r2, r3, r4, r5, r6, r7);
    KeyPathDotted(path);
  }

  /** The keys of the default path. */
  const DefaultSteps: seq<string> := ["chunks", "[]", "archives", "[]", "objects", "[]", "text", "[]"]

  /** The default path, split one key at a time from the end. */
  lemma SplitChain(r0: string, r1: string, r2: string, r3: string, r4: string, r5: string, r6: string, r7: string)
    requires r7 == "[]" && r6 == "text" + "." + r7 && r5 == "[]" + "." + r6 && r4 == "objects" + "." + r5
    requires r3 == "[]" + "." + r4 && r2 == "archives" + "." + r3 && r1 == "[]" + "." + r2 && r0 == "chunks" + "." + r1
    ensures Text.Split(r0, '.') == DefaultSteps
  {
    SplitChainLow(r4, r5, r6, r7);
    var low := ["objects", "[]", "text", "[]"];
    SplitStep("[]", r4, low);
    SplitStep("archives", r3, ["[]"] + low);
    SplitStep("[]", r2, ["archives", "[]"] + low);
    SplitStep("chunks", r1, ["[]", "archives", "[]"] + low);
    assert [ "chunks"] + (["[]", "archives", "[]"] + low) == DefaultSteps;
  }

  /** The last four keys of the default path. */
  lemma SplitChainLow(r4: string, r5: string, r6: string, r7: string)
    requires r7 == "[]" && r6 == "text" + "." + r7 && r5 == "[]" + "." + r6 && r4 == "objects" + "." + r5
    ensures Text.Split(r4, '.') == ["objects", "[]", "text", "[]"]
  {
    Text.SplitPiece("[]", [], '.');
    assert Text.Split(r7, '.') == ["[]"];
    SplitStep("text", r7, ["[]"]);
    SplitStep("[]", r6, ["text", "[]"]);
    SplitStep("objects", r5, ["[]", "text", "[]"]);
  }

  lemma SplitStep(p: string, rest: string, tail: seq<string>)
    requires forall j :: 0 <= j < |p| ==> p[j] != '.'
    requires Text.Split(rest, '.') == tail
    ensures Text.Split(p + "." + rest, '.') == [p] + tail
  {
    Text.SplitPiece(p, rest, '.');
  }
}
