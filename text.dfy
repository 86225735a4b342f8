/**
 * The Python string operations the watchlist formatter is built from:
 * `str.split` with a one-character separator, `sep.join`, `str.replace(c, '')`,
 * `str.upper` and `str.lower`.
 */
module Text {

  /** `sep.join(xs)`: the items with one separator between neighbours and none at either end. */
  function Join(xs: seq<string>, sep: char): (r: string)
    ensures xs != [] ==> xs[0] <= r
    ensures xs != [] ==> |xs[|xs| - 1]| <= |r| && r[|r| - |xs[|xs| - 1]|..] == xs[|xs| - 1]
  {
    if xs == [] then ""
    else if |xs| == 1 then xs[0]
    else xs[0] + [sep] + Join(xs[1..], sep)
  }

  /**
   * `s.split(sep)`: the fields between separators, in order. There is always at
   * least one field, no field holds the separator, and joining the fields with the
   * separator gives `s` back.
   */
  function Split(s: string, sep: char): (r: seq<string>)
    ensures |r| >= 1
    ensures forall i :: 0 <= i < |r| ==> sep !in r[i]
    ensures Join(r, sep) == s
  {
    if s == [] then [""]
    else
      var rest := Split(s[1..], sep);
      assert s == [s[0]] + s[1..];
      if s[0] == sep then
        JoinAfterEmpty(rest, sep);
        [""] + rest
      else
        JoinExtendFirst(s[0], rest, sep);
        [[s[0]] + rest[0]] + rest[1..]
  }

  lemma JoinAfterEmpty(xs: seq<string>, sep: char)
    requires xs != []
    ensures Join([""] + xs, sep) == [sep] + Join(xs, sep)
  {
    assert ([""] + xs)[1..] == xs;
  }

  lemma JoinExtendFirst(c: char, xs: seq<string>, sep: char)
    requires xs != []
    ensures Join([[c] + xs[0]] + xs[1..], sep) == [c] + Join(xs, sep)
  {
    var ys := [[c] + xs[0]] + xs[1..];
    assert ys[1..] == xs[1..];
    if |xs| > 1 {
      assert Join(xs, sep) == xs[0] + [sep] + Join(xs[1..], sep);
    }
  }

  /** `s.split(sep)[0]`: the part of `s` before the first separator, or all of `s` when there is none. */
  lemma {:induction false} FirstField(s: string, sep: char)
    ensures Split(s, sep)[0] <= s
    ensures |Split(s, sep)[0]| < |s| ==> s[|Split(s, sep)[0]|] == sep
  {
    var r := Split(s, sep);
    if |r| > 1 {
      assert Join(r, sep) == r[0] + [sep] + Join(r[1..], sep);
    }
  }

  /** Splitting a piece without separators, followed by a separator, yields that piece as the first field. */
  lemma {:induction false} SplitAfterPiece(a: string, sep: char, t: string)
    requires sep !in a
    ensures Split(a + [sep] + t, sep) == [a] + Split(t, sep)
  {
    if a == [] {
      assert a + [sep] + t == [sep] + t;
      assert ([sep] + t)[1..] == t;
    } else {
      assert (a + [sep] + t)[1..] == a[1..] + [sep] + t;
      SplitAfterPiece(a[1..], sep, t);
      assert [a[0]] + a[1..] == a;
    }
  }

  /** A string without the separator splits into itself alone. */
  lemma {:induction false} SplitWithoutSeparator(a: string, sep: char)
    requires sep !in a
    ensures Split(a, sep) == [a]
  {
    if a != [] {
      var tail := a[1..];
      assert sep !in tail;
      SplitWithoutSeparator(tail, sep);
      var rest := Split(tail, sep);
      assert rest == [tail];
      assert a[0] != sep;
      assert Split(a, sep) == [[a[0]] + rest[0]] + rest[1..];
      assert [a[0]] + tail == a;
    }
  }

  /** Round trip: splitting the join of separator-free items gives the items back. */
  lemma {:induction false} SplitJoin(xs: seq<string>, sep: char)
    requires xs != []
    requires forall i :: 0 <= i < |xs| ==> sep !in xs[i]
    ensures Split(Join(xs, sep), sep) == xs
  {
    if |xs| == 1 {
      assert Join(xs, sep) == xs[0];
      SplitWithoutSeparator(xs[0], sep);
    } else {
      var tail := Join(xs[1..], sep);
      assert Join(xs, sep) == xs[0] + [sep] + tail;
      SplitJoin(xs[1..], sep);
      SplitAfterPiece(xs[0], sep, tail);
      assert [xs[0]] + xs[1..] == xs;
    }
  }

  /** `s.replace(ch, '')`: every occurrence of `ch` removed, every other character kept. */
  function RemoveAll(s: string, ch: char): (r: string)
    ensures ch !in r
    ensures |r| <= |s|
    ensures forall x :: x != ch ==> multiset(r)[x] == multiset(s)[x]
  {
    if s == [] then ""
    else
      assert s == [s[0]] + s[1..];
      (if s[0] == ch then "" else [s[0]]) + RemoveAll(s[1..], ch)
  }

  /** Removal works piecewise, so the kept characters stay in their order. */
  lemma {:induction false} RemoveAllAppend(a: string, b: string, ch: char)
    ensures RemoveAll(a + b, ch) == RemoveAll(a, ch) + RemoveAll(b, ch)
  {
    if a != [] {
      assert (a + b)[1..] == a[1..] + b;
      RemoveAllAppend(a[1..], b, ch);
    } else {
      assert a + b == b;
    }
  }

  /** A string that does not hold `ch` is left as it is. */
  lemma {:induction false} RemoveAllAbsent(s: string, ch: char)
    requires ch !in s
    ensures RemoveAll(s, ch) == s
  {
    if s != [] {
      RemoveAllAbsent(s[1..], ch);
      assert [s[0]] + s[1..] == s;
    }
  }

  predicate IsLowerAscii(c: char) { 'a' <= c <= 'z' }
  predicate IsUpperAscii(c: char) { 'A' <= c <= 'Z' }

  /** `c.upper()` on ASCII letters; every other character is kept. */
  function UpperChar(c: char): char {
    if IsLowerAscii(c) then (c as int - 32) as char else c
  }

  /**
   * `c.lower()` where the result is ASCII: the ASCII capitals, and the Kelvin
   * sign U+212A, whose lower case is `k`; every other character is kept.
   */
  function LowerChar(c: char): char {
    if IsUpperAscii(c) then (c as int + 32) as char
    else if c == '\U{212A}' then 'k'
    else c
  }

  /** `s.upper()`, character by character. */
  function Upper(s: string): (r: string)
    ensures |r| == |s|
    ensures forall i :: 0 <= i < |s| ==> r[i] == UpperChar(s[i])
    ensures forall i :: 0 <= i < |r| ==> !IsLowerAscii(r[i])
  {
    if s == [] then "" else [UpperChar(s[0])] + Upper(s[1..])
  }

  /** `s.lower()`, character by character. */
  function Lower(s: string): (r: string)
    ensures |r| == |s|
    ensures forall i :: 0 <= i < |s| ==> r[i] == LowerChar(s[i])
    ensures forall i :: 0 <= i < |r| ==> !IsUpperAscii(r[i])
  {
    if s == [] then "" else [LowerChar(s[0])] + Lower(s[1..])
  }

  /** Lower-casing leaves a string without capitals (ASCII or the Kelvin sign) unchanged. */
  lemma LowerKeeps(s: string)
    requires forall i :: 0 <= i < |s| ==> !IsUpperAscii(s[i]) && s[i] != '\U{212A}'
    ensures Lower(s) == s
  {
    var l := Lower(s);
    forall i | 0 <= i < |s|
      ensures l[i] == s[i]
    {
      assert l[i] == LowerChar(s[i]);
    }
  }
}
