/** The font-family map (`create_font_name_map` in src/numbers_parser/model.py): the map from
    font names to families is inverted, keeping for each family the first name, in the map's
    order, that belongs to it. */
module FontNames {

  /** The inverted map as the loop leaves it after the given pairs. */
  function Inverted(pairs: seq<(string, string)>): map<string, string>
  {
    if pairs == [] then map[]
    else
      var m := Inverted(pairs[..|pairs| - 1]);
      var (name, family) := pairs[|pairs| - 1];
      if family in m then m else m[family := name]
  }

  /** `create_font_name_map`, over the (name, family) pairs of the map in its order. */
  method CreateFontNameMap(pairs: seq<(string, string)>) returns (families: map<string, string>)
    ensures families == Inverted(pairs)
  {
    families := map[];
    var i := 0;
    while i < |pairs|
      invariant 0 <= i <= |pairs|
      invariant families == Inverted(pairs[..i])
    {
      assert pairs[..i + 1][..i] == pairs[..i];
      var (name, family) := pairs[i];
      if family !in families {
        families := families[family := name];
      }
      i := i + 1;
    }
    assert pairs[..i] == pairs;
  }

  /** Every family of the map is a key of the inverted map, and each family maps to the name of
      its first pair. */
  lemma {:induction false} InvertedFirst(pairs: seq<(string, string)>)
    ensures forall i :: 0 <= i < |pairs| ==> pairs[i].1 in Inverted(pairs)
    ensures forall f :: f in Inverted(pairs) ==>
              exists i :: 0 <= i < |pairs| && pairs[i] == (Inverted(pairs)[f], f) &&
                          forall j :: 0 <= j < i ==> pairs[j].1 != f
  {
    if pairs != [] {
      var n := |pairs| - 1;
      var front := pairs[..n];
      InvertedFirst(front);
      forall i | 0 <= i < n
        ensures pairs[i] == front[i]
      {
      }
      forall f | f in Inverted(pairs)
        ensures exists i :: 0 <= i < |pairs| && pairs[i] == (Inverted(pairs)[f], f) &&
                            forall j :: 0 <= j < i ==> pairs[j].1 != f
      {
        if f in Inverted(front) {
          var i :| 0 <= i < n && front[i] == (Inverted(front)[f], f) && forall j :: 0 <= j < i ==> front[j].1 != f;
          assert pairs[i] == front[i];
        } else {
          assert forall j :: 0 <= j < n ==> pairs[j].1 != f;
          assert pairs[n] == (Inverted(pairs)[f], f);
        }
      }
    }
  }

  /** Only families of the map are keys of the inverted map. */
  lemma {:induction false} InvertedKeys(pairs: seq<(string, string)>)
    ensures forall f :: f in Inverted(pairs) ==> exists i :: 0 <= i < |pairs| && pairs[i].1 == f
  {
    if pairs != [] {
      InvertedKeys(pairs[..|pairs| - 1]);
      forall f | f in Inverted(pairs)
        ensures exists i :: 0 <= i < |pairs| && pairs[i].1 == f
      {
        if f in Inverted(pairs[..|pairs| - 1]) {
          var i :| 0 <= i < |pairs| - 1 && pairs[..|pairs| - 1][i].1 == f;
          assert pairs[i].1 == f;
        }
      }
    }
  }
}
