/** Roman numerals as written by the list-bullet renderer (src/numbers_parser/roman.py). */
module Roman {
  import opened Outcomes
  import opened Text

  /** The greedy map the converter walks, largest value first. */
  const Values: seq<nat> := [1000, 900, 500, 400, 100, 90, 50, 40, 10, 9, 5, 4, 1]
  const Symbols: seq<string> := ["M", "CM", "D", "CD", "C", "XC", "L", "XL", "X", "IX", "V", "IV", "I"]

  /** The text the greedy loop writes for `v`, starting at map entry `i`. */
  function Greedy(v: nat, i: nat): string
    requires i <= |Values|
    decreases |Values| - i, v
  {
    if i == |Values| then ""
    else if v >= Values[i] then Symbols[i] + Greedy(v - Values[i], i)
    else Greedy(v, i + 1)
  }

  /** The map entries the greedy loop picks for `v`, starting at entry `i`. */
  function Picks(v: nat, i: nat): seq<nat>
    requires i <= |Values|
    decreases |Values| - i, v
  {
    if i == |Values| then []
    else if v >= Values[i] then [i] + Picks(v - Values[i], i)
    else Picks(v, i + 1)
  }

  /** The text of a sequence of picked map entries. */
  function Spell(p: seq<nat>): string
    requires forall k :: 0 <= k < |p| ==> p[k] < |Symbols|
  {
    if p == [] then "" else Symbols[p[0]] + Spell(p[1..])
  }

  /** The sum of the values of a sequence of picked map entries. */
  function Total(p: seq<nat>): nat
    requires forall k :: 0 <= k < |p| ==> p[k] < |Values|
  {
    if p == [] then 0 else Values[p[0]] + Total(p[1..])
  }

  /** What `to_roman` returns: "N" for zero, an error outside 1..3999, the greedy spelling otherwise. */
  function RomanNumeral(value: int): (r: Result<string>)
    ensures value == 0 ==> r == Ok("N")
    ensures (value < 0 || value > 3999) ==> r == Err(ValueError)
  {
    if value == 0 then Ok("N")
    else if value < 1 || value > 3999 then Err(ValueError)
    else Ok(Greedy(value, 0))
  }

  lemma {:induction false} PicksInRange(v: nat, i: nat)
    requires i <= |Values|
    ensures forall k :: 0 <= k < |Picks(v, i)| ==> i <= Picks(v, i)[k] < |Values|
    decreases |Values| - i, v
  {
    if i == |Values| {
    } else if v >= Values[i] {
      PicksInRange(v - Values[i], i);
    } else {
      PicksInRange(v, i + 1);
    }
  }

  /** The written text is exactly the symbols of the picked entries, in order. */
  lemma {:induction false} GreedySpellsPicks(v: nat, i: nat)
    requires i <= |Values|
    ensures forall k :: 0 <= k < |Picks(v, i)| ==> Picks(v, i)[k] < |Values|
    ensures Greedy(v, i) == Spell(Picks(v, i))
    decreases |Values| - i, v
  {
    PicksInRange(v, i);
    if i == |Values| {
    } else if v >= Values[i] {
      GreedySpellsPicks(v - Values[i], i);
      assert Picks(v, i)[1..] == Picks(v - Values[i], i);
    } else {
      GreedySpellsPicks(v, i + 1);
    }
  }

  /** The values of the symbols written add up to the number converted (the last entry is 1,
      so every walk that starts before it consumes the whole value). */
  lemma {:induction false} PicksTotal(v: nat, i: nat)
    requires i < |Values|
    ensures forall k :: 0 <= k < |Picks(v, i)| ==> Picks(v, i)[k] < |Values|
    ensures Total(Picks(v, i)) == v
    decreases |Values| - i, v
  {
    PicksInRange(v, i);
    if v >= Values[i] {
      PicksTotal(v - Values[i], i);
      assert Picks(v, i)[1..] == Picks(v - Values[i], i);
    } else if i + 1 < |Values| {
      PicksTotal(v, i + 1);
    } else {
      assert Values[i] == 1 && v == 0;
    }
  }

  /** Symbols are written in non-increasing order of value: each one is worth at least as
      much as the next. */
  lemma {:induction false} PicksNonIncreasing(v: nat, i: nat)
    requires i <= |Values|
    ensures forall k :: 0 <= k < |Picks(v, i)| ==> i <= Picks(v, i)[k] < |Values|
    ensures forall k :: 0 <= k < |Picks(v, i)| - 1 ==> Values[Picks(v, i)[k]] >= Values[Picks(v, i)[k + 1]]
    decreases |Values| - i, v
  {
    PicksInRange(v, i);
    if i == |Values| {
    } else if v >= Values[i] {
      PicksNonIncreasing(v - Values[i], i);
      var q := Picks(v - Values[i], i);
      assert Picks(v, i) == [i] + q;
      if q != [] {
        ValuesDecreasing(i, q[0]);
      }
    } else {
      PicksNonIncreasing(v, i + 1);
    }
  }

  lemma ValuesDecreasing(j: nat, k: nat)
    requires j <= k < |Values|
    ensures Values[j] >= Values[k]
  {
  }

  /** For every value in 1..3999 the numeral is a run of symbols whose values add up to the
      value and never increase. */
  lemma RomanNumeralMeaning(value: int)
    requires 1 <= value <= 3999
    ensures forall k :: 0 <= k < |Picks(value, 0)| ==> Picks(value, 0)[k] < |Values|
    ensures RomanNumeral(value) == Ok(Spell(Picks(value, 0)))
    ensures Total(Picks(value, 0)) == value
    ensures forall k :: 0 <= k < |Picks(value, 0)| - 1 ==>
              Values[Picks(value, 0)[k]] >= Values[Picks(value, 0)[k + 1]]
  {
    GreedySpellsPicks(value, 0);
    PicksTotal(value, 0);
    PicksNonIncreasing(value, 0);
  }

  /** `to_roman`: zero and out-of-range values first, then the greedy loop. */
  method ToRoman(value: int) returns (r: Result<string>)
    ensures r == RomanNumeral(value)
    ensures r.Ok? <==> 0 <= value <= 3999
  {
    if value == 0 {
      return Ok("N");
    }
    if value < 1 || value > 3999 {
      return Err(ValueError);
    }
    var romanNum := GreedyLoop(value);
    return Ok(romanNum);
  }

  /** The loop of `to_roman` over the map: each symbol is appended while the remaining value
      allows it. */
  method GreedyLoop(value: nat) returns (romanNum: string)
    ensures romanNum == Greedy(value, 0)
  {
    romanNum := "";
    var rest: nat := value;
    var i := 0;
    while i < |Values|
      invariant i <= |Values|
      invariant romanNum + Greedy(rest, i) == Greedy(value, 0)
    {
      var worth, symbol := Values[i], Symbols[i];
      while rest >= worth
        invariant romanNum + Greedy(rest, i) == Greedy(value, 0)
      {
        assert Greedy(rest, i) == symbol + Greedy(rest - worth, i);
        AppendAssoc(romanNum, symbol, Greedy(rest - worth, i));
        romanNum := romanNum + symbol;
        rest := rest - worth;
      }
      i := i + 1;
    }
    assert Greedy(rest, i) == "" && romanNum + "" == romanNum;
  }

  /** Entries whose value exceeds what is left are passed over without writing anything. */
  lemma {:induction false} GreedySkip(v: nat, i: nat, j: nat)
    requires i <= j <= |Values|
    requires forall k :: i <= k < j ==> v < Values[k]
    ensures Greedy(v, i) == Greedy(v, j)
    decreases j - i
  {
    if i < j {
      GreedySkip(v, i + 1, j);
    }
  }

  lemma RomanExamples()
    ensures RomanNumeral(4) == Ok("IV")
    ensures RomanNumeral(900) == Ok("CM")
    ensures RomanNumeral(3999) == Ok("MMMCMXCIX")
  {
    GreedySkip(4, 0, 11);
    GreedySkip(0, 11, 13);
    assert Greedy(0, 13) == "";
    assert Greedy(4, 11) == "IV" + Greedy(0, 11);
    assert Greedy(4, 0) == "IV";
    GreedySkip(900, 0, 1);
    GreedySkip(0, 1, 13);
    assert Greedy(900, 1) == "CM" + Greedy(0, 1);
    assert Greedy(900, 0) == "CM";
    GreedySkip(999, 0, 1);
    GreedySkip(99, 1, 5);
    GreedySkip(9, 5, 9);
    GreedySkip(0, 9, 13);
    assert Greedy(9, 9) == "IX" + Greedy(0, 9);
    assert Greedy(99, 5) == "XC" + Greedy(9, 5);
    assert Greedy(999, 1) == "CM" + Greedy(99, 1);
    assert Greedy(999, 0) == "CMXCIX";
    assert Greedy(1999, 0) == "MCMXCIX";
    assert Greedy(2999, 0) == "MMCMXCIX";
    assert Greedy(3999, 0) == "MMMCMXCIX";
  }
}
