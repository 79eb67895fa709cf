/** JSON values as the archives' `to_dict` produces them and as the unpacker and the
    Keynote replacement walk them: dictionaries keep their keys in insertion order. */
module JsonValues {
  import opened Outcomes

  datatype Json =
    | JNull
    | JBool(b: bool)
    | JNum(n: int)
    | JStr(s: string)
    | JList(items: seq<Json>)
    | JObj(members: seq<Member>)

  /** One key of a dictionary with its value, in the dictionary's order. */
  datatype Member = Member(key: string, value: Json)

  /** `key in d` */
  predicate Has(ms: seq<Member>, key: string)
  {
    exists i :: 0 <= i < |ms| && ms[i].key == key
  }

  /** `d[key]`, None for a missing key. */
  function Find(ms: seq<Member>, key: string): (r: Option<Json>)
    ensures r.Some? <==> Has(ms, key)
  {
    if ms == [] then None
    else if ms[0].key == key then Some(ms[0].value)
    else
      HasTail(ms, key);
      Find(ms[1..], key)
  }

  /** The keys of a dictionary, in order. */
  function Keys(ms: seq<Member>): (r: seq<string>)
    ensures |r| == |ms| && forall i :: 0 <= i < |ms| ==> r[i] == ms[i].key
  {
    seq(|ms|, i requires 0 <= i < |ms| => ms[i].key)
  }

  /** `d[key] = v`: the value of an existing key replaced where it stands, a new key
      appended. */
  function SetKey(ms: seq<Member>, key: string, v: Json): (r: seq<Member>)
    ensures Has(ms, key) ==> Keys(r) == Keys(ms)
    ensures !Has(ms, key) ==> Keys(r) == Keys(ms) + [key]
  {
    if ms == [] then [Member(key, v)]
    else if ms[0].key == key then [Member(key, v)] + ms[1..]
    else
      assert Has(ms, key) <==> Has(ms[1..], key) by {
        HasTail(ms, key);
      }
      [ms[0]] + SetKey(ms[1..], key, v)
  }

  lemma HasTail(ms: seq<Member>, key: string)
    requires ms != [] && ms[0].key != key
    ensures Has(ms, key) <==> Has(ms[1..], key)
  {
    if Has(ms, key) {
      var i :| 0 <= i < |ms| && ms[i].key == key;
      assert ms[1..][i - 1].key == key;
    }
    if Has(ms[1..], key) {
      var i :| 0 <= i < |ms[1..]| && ms[1..][i].key == key;
      assert ms[i + 1].key == key;
    }
  }

  /** After `d[key] = v`, `d[key]` is `v` and every other key reads as before. */
  lemma {:induction false} SetKeyFind(ms: seq<Member>, key: string, v: Json, other: string)
    ensures Find(SetKey(ms, key, v), key) == Some(v)
    ensures other != key ==> Find(SetKey(ms, key, v), other) == Find(ms, other)
  {
    if ms != [] && ms[0].key != key {
      SetKeyFind(ms[1..], key, v, other);
      assert SetKey(ms, key, v)[1..] == SetKey(ms[1..], key, v);
    } else if ms != [] {
      assert SetKey(ms, key, v)[1..] == ms[1..];
    }
  }
}
