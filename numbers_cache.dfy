/** src/numbers_parser/numbers_cache.py: per-instance memoisation of methods. A method
    decorated with `cache(num_args)` is keyed by its name and by the "."-joined `str()` of its
    first `num_args` positional arguments; with `num_args=0` it is computed once per instance.
    Arguments are modelled by their `str()` forms, and the decorated method by a `compute`
    function of them. */
module NumbersCache {
  import opened Outcomes
  import Text

  /** The key of a call: the first `numArgs` arguments joined by "."; fewer positional
      arguments than that is an IndexError. */
  function CacheKey(args: seq<string>, numArgs: nat): (r: Result<string>)
    ensures r.Ok? <==> numArgs <= |args|
    ensures r.Err? ==> r.error == IndexError
  {
    if numArgs > |args| then Err(IndexError) else Ok(Text.Join(args[..numArgs], '.'))
  }

  /** Arguments after the first `numArgs` do not take part in the key. */
  lemma KeyIgnoresLaterArguments(a: seq<string>, b: seq<string>, numArgs: nat)
    requires numArgs <= |a| && numArgs <= |b| && a[..numArgs] == b[..numArgs]
    ensures CacheKey(a, numArgs) == CacheKey(b, numArgs)
  {
  }

  predicate Dotless(parts: seq<string>)
  {
    forall k, j :: 0 <= k < |parts| && 0 <= j < |parts[k]| ==> parts[k][j] != '.'
  }

  /** When no keyed argument prints with a ".", as holds for the integer identifiers the
      model passes, equal keys mean equal keyed arguments, so two different calls never share
      a cache entry. */
  lemma {:induction false} KeyInjective(a: seq<string>, b: seq<string>, numArgs: nat)
    requires 1 <= numArgs <= |a| && numArgs <= |b|
    requires Dotless(a[..numArgs]) && Dotless(b[..numArgs])
    requires CacheKey(a, numArgs) == CacheKey(b, numArgs)
    ensures a[..numArgs] == b[..numArgs]
  {
    Text.SplitJoin(a[..numArgs], '.');
    Text.SplitJoin(b[..numArgs], '.');
  }

  /** Arguments whose text holds a "." can share a key: ("a.b", "c") and ("a", "b.c") both
      give "a.b.c". */
  lemma KeyCollision()
    ensures CacheKey(["a.b", "c"], 2) == CacheKey(["a", "b.c"], 2) == Ok("a.b.c")
  {
    assert ["a.b", "c"][..2] == ["a.b", "c"];
    assert ["a", "b.c"][..2] == ["a", "b.c"];
    assert Text.Join(["a.b", "c"], '.') == "a.b" + ['.'] + "c" == "a.b.c";
    assert Text.Join(["a", "b.c"], '.') == "a" + ['.'] + "b.c" == "a.b.c";
  }

  /** The `_cache` of one `Cacheable` instance: results by method name for `num_args=0`
      methods, and by method name and key for the others. */
  class Cacheable<V> {
    var whole: map<string, V>
    var keyed: map<string, map<string, V>>

    /** `Cacheable.__new__`: every instance starts with its own empty cache. */
    constructor ()
      ensures whole == map[] && keyed == map[]
    {
      whole := map[];
      keyed := map[];
    }

    /** The decorated method `name` called with `args`: a stored result is returned without
        calling `compute`; otherwise `compute(args)` is stored and returned. */
    method Call(name: string, numArgs: nat, args: seq<string>, compute: seq<string> -> V) returns (r: Result<V>)
      modifies this
      ensures r.Ok? ==> Lookup(name, numArgs, args) == Some(r.value)
      ensures numArgs == 0 ==> r.Ok? && keyed == old(keyed)
      ensures numArgs == 0 && name in old(whole) ==> r == Ok(old(whole)[name]) && whole == old(whole)
      ensures numArgs == 0 && name !in old(whole) ==> r == Ok(compute(args)) && whole == old(whole)[name := compute(args)]
      ensures numArgs > 0 ==> whole == old(whole)
      ensures numArgs > 0 && CacheKey(args, numArgs).Err? ==> r == Err(IndexError) && keyed == old(keyed)
      ensures numArgs > 0 && CacheKey(args, numArgs).Ok? ==>
        (var key := CacheKey(args, numArgs).value;
         var slot := if name in old(keyed) then old(keyed)[name] else map[];
         if key in slot then r == Ok(slot[key]) && keyed == old(keyed)[name := slot]
         else r == Ok(compute(args)) && keyed == old(keyed)[name := slot[key := compute(args)]])
    {
      if numArgs == 0 {
        if name !in whole {
          whole := whole[name := compute(args)];
        }
        return Ok(whole[name]);
      }
      var key :- CacheKey(args, numArgs);
      var slot := if name in keyed then keyed[name] else map[];
      keyed := keyed[name := slot];
      if key in slot {
        return Ok(slot[key]);
      }
      var value := compute(args);
      keyed := keyed[name := slot[key := value]];
      return Ok(value);
    }

    /** The stored result of `name` for `args`, if any: what the next call returns. */
    function Lookup(name: string, numArgs: nat, args: seq<string>): (r: Option<V>)
      reads this
      ensures numArgs == 0 ==> (r.Some? <==> name in whole)
      ensures numArgs > 0 && r.Some? ==>
        name in keyed && CacheKey(args, numArgs).Ok? && CacheKey(args, numArgs).value in keyed[name]
    {
      if numArgs == 0 then (if name in whole then Some(whole[name]) else None)
      else if name in keyed && CacheKey(args, numArgs).Ok? && CacheKey(args, numArgs).value in keyed[name]
      then Some(keyed[name][CacheKey(args, numArgs).value])
      else None
    }
  }
}
