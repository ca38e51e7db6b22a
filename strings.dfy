/**
 * The string operations the challenge header relies on: `toLowerCase`,
 * `toUpperCase`, `String.prototype.includes`, `split(', ')`, lodash's
 * `_.uniq` and a simplified lodash `_.camelCase`. Case mapping is ASCII only.
 */
module Strings {

  predicate IsUpperAscii(c: char) { 'A' <= c <= 'Z' }

  predicate IsLowerAscii(c: char) { 'a' <= c <= 'z' }

  predicate IsAlnum(c: char) { IsLowerAscii(c) || IsUpperAscii(c) || '0' <= c <= '9' }

  function LowerChar(c: char): char
  {
    if IsUpperAscii(c) then (c as int - 'A' as int + 'a' as int) as char else c
  }

  function UpperChar(c: char): char
  {
    if IsLowerAscii(c) then (c as int - 'a' as int + 'A' as int) as char else c
  }

  /** `s.toLowerCase()` restricted to ASCII letters. */
  function Lower(s: string): (r: string)
    ensures |r| == |s|
  {
    if s == [] then [] else [LowerChar(s[0])] + Lower(s[1..])
  }

  /** `s.toUpperCase()` restricted to ASCII letters. */
  function Upper(s: string): (r: string)
    ensures |r| == |s|
  {
    if s == [] then [] else [UpperChar(s[0])] + Upper(s[1..])
  }

  /** Lower-casing maps every character on its own. */
  lemma {:induction false} LowerAt(s: string)
    ensures forall i :: 0 <= i < |s| ==> Lower(s)[i] == LowerChar(s[i])
    decreases |s|
  {
    if s != [] {
      LowerAt(s[1..]);
    }
  }

  /** Upper-casing maps every character on its own. */
  lemma {:induction false} UpperAt(s: string)
    ensures forall i :: 0 <= i < |s| ==> Upper(s)[i] == UpperChar(s[i])
    decreases |s|
  {
    if s != [] {
      UpperAt(s[1..]);
    }
  }

  /** Lower-casing leaves no upper-case letter behind. */
  lemma LowerHasNoUpper(s: string)
    ensures forall i :: 0 <= i < |Lower(s)| ==> !IsUpperAscii(Lower(s)[i])
  {
    LowerAt(s);
  }

  /** Upper-casing leaves no lower-case letter behind. */
  lemma UpperHasNoLower(s: string)
    ensures forall i :: 0 <= i < |Upper(s)| ==> !IsLowerAscii(Upper(s)[i])
  {
    UpperAt(s);
  }

  predicate StartsWith(s: string, t: string)
  {
    |t| <= |s| && s[..|t|] == t
  }

  /** `s.includes(t)`. */
  function Contains(s: string, t: string): bool
    decreases |s|
  {
    if StartsWith(s, t) then true
    else if |s| == 0 then false
    else Contains(s[1..], t)
  }

  /** `Contains` finds exactly the positions where `t` occurs. */
  lemma {:induction false} ContainsIff(s: string, t: string)
    ensures Contains(s, t) <==> exists i :: 0 <= i <= |s| && StartsWith(s[i..], t)
    decreases |s|
  {
    if StartsWith(s, t) {
      assert s[0..] == s;
    } else if |s| > 0 {
      ContainsIff(s[1..], t);
      OccursLater(s, t);
      assert s[0..] == s;
    }
  }

  /** An occurrence in the tail `s[1..]` is an occurrence in `s` one position on. */
  lemma OccursLater(s: string, t: string)
    requires |s| > 0
    ensures (exists i :: 0 <= i <= |s| - 1 && StartsWith(s[1..][i..], t))
        <==> (exists i :: 1 <= i <= |s| && StartsWith(s[i..], t))
  {
    forall i | 0 <= i <= |s| - 1
      ensures s[1..][i..] == s[i + 1..]
    {
    }
    if exists i :: 1 <= i <= |s| && StartsWith(s[i..], t) {
      var i :| 1 <= i <= |s| && StartsWith(s[i..], t);
      assert s[1..][i - 1..] == s[i..];
    }
  }

  const SEPARATOR: string := ", "

  /**
   * `s.split(', ')`: the pieces between the separators, found from left to
   * right. There is always at least one piece.
   */
  function Split(s: string): (r: seq<string>)
    ensures |r| >= 1
    decreases |s|
  {
    if |s| == 0 then [""]
    else if StartsWith(s, SEPARATOR) then [""] + Split(s[2..])
    else
      var rest := Split(s[1..]);
      [[s[0]] + rest[0]] + rest[1..]
  }

  /** `pieces.join(', ')`. */
  function Join(pieces: seq<string>): string
    requires |pieces| >= 1
    decreases |pieces|
  {
    if |pieces| == 1 then pieces[0] else pieces[0] + SEPARATOR + Join(pieces[1..])
  }

  /** Joining the pieces of a split restores the original text. */
  lemma {:induction false} JoinSplit(s: string)
    ensures Join(Split(s)) == s
    decreases |s|
  {
    if |s| == 0 {
    } else if StartsWith(s, SEPARATOR) {
      JoinSplit(s[2..]);
      SplitAtSeparator(s);
    } else {
      JoinSplit(s[1..]);
      SplitAtOther(s);
    }
  }

  lemma SplitAtSeparator(s: string)
    requires StartsWith(s, SEPARATOR) && Join(Split(s[2..])) == s[2..]
    ensures Join(Split(s)) == s
  {
    assert Split(s) == [""] + Split(s[2..]);
    JoinCons("", Split(s[2..]));
    assert s == SEPARATOR + s[2..];
  }

  lemma SplitAtOther(s: string)
    requires |s| > 0 && !StartsWith(s, SEPARATOR) && Join(Split(s[1..])) == s[1..]
    ensures Join(Split(s)) == s
  {
    var rest := Split(s[1..]);
    assert Split(s) == [[s[0]] + rest[0]] + rest[1..];
    JoinExtendFirst(s[0], rest);
    assert s == [s[0]] + s[1..];
  }

  lemma {:induction false} JoinCons(head: string, rest: seq<string>)
    requires |rest| >= 1
    ensures Join([head] + rest) == head + SEPARATOR + Join(rest)
  {
    assert ([head] + rest)[1..] == rest;
  }

  /** Prefixing the first piece with `c` prefixes the joined text with `c`. */
  lemma {:induction false} JoinExtendFirst(c: char, pieces: seq<string>)
    requires |pieces| >= 1
    ensures Join([[c] + pieces[0]] + pieces[1..]) == [c] + Join(pieces)
  {
    var r := [[c] + pieces[0]] + pieces[1..];
    assert |r| == |pieces| && r[0] == [c] + pieces[0];
    if |pieces| > 1 {
      var j := Join(pieces[1..]);
      assert r[1..] == pieces[1..];
      assert Join(r) == ([c] + pieces[0]) + SEPARATOR + j;
      assert Join(pieces) == pieces[0] + SEPARATOR + j;
      assert ([c] + pieces[0]) + SEPARATOR + j == [c] + (pieces[0] + SEPARATOR + j);
    }
  }

  /** The position of the first occurrence of `x` in `xs`. */
  function FirstIndex<T(==)>(xs: seq<T>, x: T): (k: nat)
    requires x in xs
    ensures k < |xs| && xs[k] == x
    ensures forall j :: 0 <= j < k ==> xs[j] != x
  {
    if xs[0] == x then 0 else 1 + FirstIndex(xs[1..], x)
  }

  /** Appending elements does not move a first occurrence. */
  lemma FirstIndexOfPrefix<T>(init: seq<T>, xs: seq<T>, x: T)
    requires x in init && |init| <= |xs| && xs[..|init|] == init
    ensures x in xs && FirstIndex(xs, x) == FirstIndex(init, x)
  {
    var f := FirstIndex(init, x);
    assert xs[f] == init[f];
    assert forall j :: 0 <= j < f ==> xs[j] == init[j];
  }

  /**
   * lodash `_.uniq`: the first occurrence of every element, in the order of
   * first occurrence.
   */
  function Dedup<T(==,!new)>(xs: seq<T>): (r: seq<T>)
    ensures forall x :: x in r <==> x in xs
    ensures forall i, j :: 0 <= i < j < |r| ==> r[i] != r[j]
    ensures forall i, j :: 0 <= i < j < |r| ==> FirstIndex(xs, r[i]) < FirstIndex(xs, r[j])
    ensures |r| <= |xs|
    decreases |xs|
  {
    if xs == [] then []
    else
      var init := xs[..|xs| - 1];
      var r := Dedup(init);
      assert xs == init + [xs[|xs| - 1]];
      DedupStep(init, xs, r);
      if xs[|xs| - 1] in r then r
      else
        FirstIndexOfNew(init, xs[|xs| - 1]);
        r + [xs[|xs| - 1]]
  }

  /** One step of `Dedup`: the first occurrences in `init` keep their positions in `xs`. */
  lemma DedupStep<T>(init: seq<T>, xs: seq<T>, r: seq<T>)
    requires |xs| == |init| + 1 && xs[..|init|] == init
    requires forall x :: x in r ==> x in init
    ensures forall i :: 0 <= i < |r| ==> r[i] in xs && FirstIndex(xs, r[i]) == FirstIndex(init, r[i])
  {
    forall i | 0 <= i < |r|
      ensures r[i] in xs && FirstIndex(xs, r[i]) == FirstIndex(init, r[i])
    {
      FirstIndexOfPrefix(init, xs, r[i]);
    }
  }

  /** An element new to `xs` has its first occurrence at the end. */
  lemma FirstIndexOfNew<T>(init: seq<T>, x: T)
    requires x !in init
    ensures FirstIndex(init + [x], x) == |init|
  {
    var xs := init + [x];
    assert xs[|init|] == x;
    assert forall j :: 0 <= j < |init| ==> xs[j] == init[j];
  }

  /** A list without repetitions is its own `_.uniq`. */
  lemma {:induction false} DedupOfDistinct<T(!new)>(xs: seq<T>)
    requires forall i, j :: 0 <= i < j < |xs| ==> xs[i] != xs[j]
    ensures Dedup(xs) == xs
    decreases |xs|
  {
    if xs != [] {
      var init := xs[..|xs| - 1];
      DedupOfDistinct(init);
      assert xs[|xs| - 1] !in init;
      assert xs == init + [xs[|xs| - 1]];
    }
  }

  /**
   * A simplified lodash `_.camelCase`: words are the maximal runs of ASCII
   * letters and digits; the first word is lower-cased, every later word has
   * its first character upper-cased and the rest lower-cased.
   */
  function CamelCase(s: string): string
  {
    CamelFrom(s, true, false)
  }

  /**
   * `atStart`: no word has been emitted yet; `wordBreak`: a separator was
   * seen since the last emitted character.
   */
  function CamelFrom(s: string, atStart: bool, wordBreak: bool): (r: string)
    ensures forall i :: 0 <= i < |r| ==> IsAlnum(r[i])
    ensures |r| <= |s|
    decreases |s|
  {
    if s == [] then []
    else if !IsAlnum(s[0]) then CamelFrom(s[1..], atStart, true)
    else
      var c := if wordBreak && !atStart then UpperChar(s[0]) else LowerChar(s[0]);
      [c] + CamelFrom(s[1..], false, false)
  }

  /** A single lower-case word is its own key. */
  lemma {:induction false} CamelFromOfLowerWord(s: string, atStart: bool)
    requires forall i :: 0 <= i < |s| ==> IsLowerAscii(s[i]) || '0' <= s[i] <= '9'
    ensures CamelFrom(s, atStart, false) == s
    decreases |s|
  {
    if s != [] {
      CamelFromOfLowerWord(s[1..], false);
    }
  }
}
