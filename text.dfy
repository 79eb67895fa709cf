/** Text helpers shared by several modules: hexadecimal digit strings (`int(s, 16)`, `"%0Nx"`)
    and Python's `str.replace`. */
module Text {

  predicate IsHexDigit(c: char)
  {
    '0' <= c <= '9' || 'a' <= c <= 'f' || 'A' <= c <= 'F'
  }

  predicate AllHex(s: string) { forall k :: 0 <= k < |s| ==> IsHexDigit(s[k]) }

  function HexDigitValue(c: char): (d: nat)
    requires IsHexDigit(c)
    ensures d < 16
  {
    if '0' <= c <= '9' then c as int - '0' as int
    else if 'a' <= c <= 'f' then c as int - 'a' as int + 10
    else c as int - 'A' as int + 10
  }

  /** The lower-case digit for `d`, as `%x` writes it. */
  function HexDigitChar(d: nat): (c: char)
    requires d < 16
    ensures IsHexDigit(c) && HexDigitValue(c) == d
    ensures !('A' <= c <= 'Z')
  {
    if d < 10 then ('0' as int + d) as char else ('a' as int + d - 10) as char
  }

  function Pow16(n: nat): (r: nat)
    ensures r >= 1
  {
    if n == 0 then 1 else 16 * Pow16(n - 1)
  }

  /** `int(s, 16)` for a string of hexadecimal digits. */
  function HexValue(s: string): nat
    requires AllHex(s)
  {
    if s == [] then 0 else HexValue(s[..|s| - 1]) * 16 + HexDigitValue(s[|s| - 1])
  }

  /** The `n` lowest lower-case hex digits of `v`, zero-filled. */
  function HexDigits(v: nat, n: nat): (s: string)
    ensures |s| == n && AllHex(s)
  {
    if n == 0 then "" else HexDigits(v / 16, n - 1) + [HexDigitChar(v % 16)]
  }

  /** Concatenation regrouped, for proofs that build text piece by piece. */
  lemma AppendAssoc<T>(a: seq<T>, b: seq<T>, c: seq<T>)
    ensures (a + b) + c == a + (b + c)
  {
  }

  /** One more digit: the digits of `v / 16`, then the digit of `v % 16`. */
  lemma HexDigitsSnoc(v: nat, n: nat, prefix: string, c: char)
    requires HexDigits(v / 16, n) == prefix && HexDigitChar(v % 16) == c
    ensures HexDigits(v, n + 1) == prefix + [c]
  {
  }

  /** Writing `v` in `n` digits and reading it back gives `v` when it fits. */
  lemma {:induction false} HexValueOfHexDigits(v: nat, n: nat)
    requires v < Pow16(n)
    ensures HexValue(HexDigits(v, n)) == v
  {
    if n > 0 {
      var s := HexDigits(v, n);
      assert s[..|s| - 1] == HexDigits(v / 16, n - 1);
      HexValueOfHexDigits(v / 16, n - 1);
    }
  }

  /** `n` hex digits are worth less than 16^n. */
  lemma {:induction false} HexValueBound(s: string)
    requires AllHex(s)
    ensures HexValue(s) < Pow16(|s|)
  {
    if s != [] {
      HexValueBound(s[..|s| - 1]);
    }
  }

  lemma {:induction false} Pow16Add(a: nat, b: nat)
    ensures Pow16(a + b) == Pow16(a) * Pow16(b)
    decreases a
  {
    if a > 0 {
      Pow16Add(a - 1, b);
    }
  }

  /** The number of hex digits `%x` writes for `v`: at least one, no leading zero. */
  function HexWidth(v: nat): (n: nat)
    ensures n >= 1 && v < Pow16(n)
    ensures n > 1 ==> Pow16(n - 1) <= v
  {
    if v < 16 then 1 else 1 + HexWidth(v / 16)
  }

  /** `"%0wx" % v`: the lower-case hex digits of `v`, zero-filled to at least `w` digits. */
  function PaddedHex(v: nat, w: nat): (s: string)
    ensures |s| >= w && AllHex(s) && HexValue(s) == v
    ensures w >= 1 && v < Pow16(w) ==> s == HexDigits(v, w)
  {
    var n := if w < HexWidth(v) then HexWidth(v) else w;
    Pow16Monotone(HexWidth(v), n);
    HexValueOfHexDigits(v, n);
    if w >= 1 && v < Pow16(w) then
      HexWidthMinimal(v, w);
      HexDigits(v, n)
    else HexDigits(v, n)
  }

  lemma {:induction false} Pow16Monotone(a: nat, b: nat)
    requires a <= b
    ensures Pow16(a) <= Pow16(b)
    decreases b
  {
    if a < b {
      Pow16Monotone(a, b - 1);
    }
  }

  /** No shorter width than `HexWidth(v)` holds `v`. */
  lemma HexWidthMinimal(v: nat, w: nat)
    requires w >= 1 && v < Pow16(w)
    ensures HexWidth(v) <= w
  {
  }

  /** `p` occurs in `s` at position `i`. */
  predicate OccursAt(s: string, p: string, i: nat)
  {
    i + |p| <= |s| && s[i..i + |p|] == p
  }

  /** `p in s` for strings: `p` occurs somewhere in `s`. */
  predicate Contains(s: string, p: string)
  {
    exists i: nat | i <= |s| :: OccursAt(s, p, i)
  }

  /** `s.replace(p, t)`: every occurrence of `p`, found left to right without overlap, becomes `t`. */
  function ReplaceAll(s: string, p: string, t: string): (r: string)
    requires |p| > 0
    decreases |s|
  {
    if |s| < |p| then s
    else if s[..|p|] == p then t + ReplaceAll(s[|p|..], p, t)
    else [s[0]] + ReplaceAll(s[1..], p, t)
  }

  /** A string in which `p` does not occur is left as it is. */
  lemma {:induction false} ReplaceAllAbsent(s: string, p: string, t: string)
    requires |p| > 0
    requires forall i: nat :: !OccursAt(s, p, i)
    ensures ReplaceAll(s, p, t) == s
    decreases |s|
  {
    if |s| >= |p| {
      assert !OccursAt(s, p, 0);
      forall i: nat
        ensures !OccursAt(s[1..], p, i)
      {
        assert !OccursAt(s, p, i + 1);
        if i + |p| <= |s| - 1 {
          assert s[1..][i..i + |p|] == s[i + 1..i + 1 + |p|];
        }
      }
      ReplaceAllAbsent(s[1..], p, t);
      assert s == [s[0]] + s[1..];
    }
  }

  /** An occurrence at the front is replaced and the rest is scanned on its own. */
  lemma ReplaceAllPrefix(p: string, rest: string, t: string)
    requires |p| > 0
    ensures ReplaceAll(p + rest, p, t) == t + ReplaceAll(rest, p, t)
  {
    var s := p + rest;
    assert s[..|p|] == p && s[|p|..] == rest;
  }

  /** A string of hex digits holds no occurrence of a pattern ending in a non-hex character. */
  lemma NoNonHexOccurrence(s: string, p: string)
    requires |p| > 0 && !IsHexDigit(p[|p| - 1]) && AllHex(s)
    ensures forall i: nat :: !OccursAt(s, p, i)
  {
    forall i: nat
      ensures !OccursAt(s, p, i)
    {
      if i + |p| <= |s| {
        assert s[i..i + |p|][|p| - 1] == s[i + |p| - 1];
      }
    }
  }

  /** `s.split(sep)` for a one-character separator: the pieces between separators, at least
      one. */
  function Split(s: string, sep: char): (parts: seq<string>)
    ensures |parts| >= 1
    ensures forall k, j :: 0 <= k < |parts| && 0 <= j < |parts[k]| ==> parts[k][j] != sep
  {
    if s == [] then [""]
    else
      var rest := Split(s[1..], sep);
      if s[0] == sep then [""] + rest else [[s[0]] + rest[0]] + rest[1..]
  }

  /** `sep.join(parts)` */
  function Join(parts: seq<string>, sep: char): string
  {
    if parts == [] then ""
    else if |parts| == 1 then parts[0]
    else parts[0] + [sep] + Join(parts[1..], sep)
  }

  /** Joining the pieces again gives back the text. */
  lemma {:induction false} JoinSplit(s: string, sep: char)
    ensures Join(Split(s, sep), sep) == s
  {
    if s != [] {
      var rest := Split(s[1..], sep);
      JoinSplit(s[1..], sep);
      if s[0] != sep {
        if |rest| == 1 {
        } else {
          assert ([[s[0]] + rest[0]] + rest[1..])[1..] == rest[1..];
        }
      } else {
        assert ([""] + rest)[1..] == rest;
      }
    }
  }

  /** Splitting pieces that hold no separator, joined by it, gives the pieces back. */
  lemma {:induction false} SplitJoin(parts: seq<string>, sep: char)
    requires |parts| >= 1
    requires forall k, j :: 0 <= k < |parts| && 0 <= j < |parts[k]| ==> parts[k][j] != sep
    ensures Split(Join(parts, sep), sep) == parts
  {
    if |parts| == 1 {
      SplitPiece(parts[0], [], sep);
    } else {
      SplitJoin(parts[1..], sep);
      SplitPiece(parts[0], Join(parts[1..], sep), sep);
      assert [parts[0]] + parts[1..] == parts;
    }
  }

  /** A piece without the separator is the first piece, and what follows the separator after
      it is split on its own. */
  lemma {:induction false} SplitPiece(p: string, rest: string, sep: char)
    requires forall j :: 0 <= j < |p| ==> p[j] != sep
    ensures Split(p, sep) == [p]
    ensures Split(p + [sep] + rest, sep) == [p] + Split(rest, sep)
  {
    if p != [] {
      SplitPiece(p[1..], rest, sep);
      assert (p + [sep] + rest)[1..] == p[1..] + [sep] + rest;
      assert [p[0]] + p[1..] == p;
    } else {
      assert ([sep] + rest)[1..] == rest;
    }
  }

  /** `str.lower` on ASCII letters; other characters are kept. */
  function Lower(s: string): (r: string)
    ensures |r| == |s|
    ensures forall k :: 0 <= k < |s| ==> r[k] == if 'A' <= s[k] <= 'Z' then (s[k] as int + 32) as char else s[k]
  {
    if s == [] then []
    else [if 'A' <= s[0] <= 'Z' then (s[0] as int + 32) as char else s[0]] + Lower(s[1..])
  }

  /** Python's `<` on strings: code point by code point, a proper prefix first. */
  predicate StrLess(a: string, b: string)
  {
    if a == [] then b != []
    else if b == [] then false
    else if a[0] != b[0] then a[0] < b[0]
    else StrLess(a[1..], b[1..])
  }

  /** Python's `<=` on strings. */
  predicate StrLessEq(a: string, b: string) { a == b || StrLess(a, b) }

  /** `<` on strings is irreflexive and asymmetric, so a strict order. */
  lemma {:induction false} StrLessStrict(a: string, b: string)
    ensures !StrLess(a, a)
    ensures StrLess(a, b) ==> !StrLess(b, a)
  {
    if a != [] && b != [] && a[0] == b[0] {
      StrLessStrict(a[1..], b[1..]);
    }
    if a != [] {
      StrLessStrict(a[1..], a[1..]);
    }
  }

  /** Two different strings are ordered one way or the other. */
  lemma {:induction false} StrLessTotal(a: string, b: string)
    requires a != b
    ensures StrLess(a, b) || StrLess(b, a)
  {
    if a != [] && b != [] && a[0] == b[0] {
      assert a == [a[0]] + a[1..] && b == [b[0]] + b[1..];
      StrLessTotal(a[1..], b[1..]);
    }
  }
}
