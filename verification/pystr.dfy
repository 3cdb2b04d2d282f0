/**
 * The parts of Python's `str` that the assistant relies on: whitespace,
 * case mapping (`lower`, `upper`, `capitalize`, `title`), `strip`, `split()`
 * with no separator, `' '.join`, `startswith`, `in`, `replace(p, "")`,
 * `split(sep)[-1]` and the decimal formatting of a natural number.
 *
 * Characters are Unicode scalar values. Whitespace and case are modelled for
 * the characters up to U+00FF (ASCII and Latin-1, which covers Spanish text);
 * every character above U+00FF is treated as a caseless non-space character.
 */
module PyStr {
  import opened Wrappers

  type String = seq<char>

  /** `c.isspace()` for characters up to U+00FF. */
  predicate IsSpace(c: char) {
    var n := c as int;
    9 <= n <= 13 || 28 <= n <= 32 || n == 0x85 || n == 0xA0
  }

  /** Upper-case letters whose lower-case form is one character: A-Z and À-Þ except ×. */
  predicate IsUpper(c: char) {
    var n := c as int;
    65 <= n <= 90 || (0xC0 <= n <= 0xDE && n != 0xD7)
  }

  /** Lower-case letters whose upper-case form is one character: a-z and à-þ except ÷. */
  predicate IsLower(c: char) {
    var n := c as int;
    97 <= n <= 122 || (0xE0 <= n <= 0xFE && n != 0xF7)
  }

  /**
   * Letters that Python counts as cased (lower-case) but whose case mapping
   * the model leaves alone: ª, µ, º, ß and ÿ. Their `lower()` is themselves;
   * their `upper()` is themselves for ª and º and lies outside Latin-1 (or is
   * two characters) for µ, ß and ÿ.
   */
  predicate IsOtherCased(c: char) {
    var n := c as int;
    n == 0xAA || n == 0xB5 || n == 0xBA || n == 0xDF || n == 0xFF
  }

  /** `c.isupper() or c.islower()` for characters up to U+00FF: what `title()` counts as cased. */
  predicate IsCased(c: char) {
    IsUpper(c) || IsLower(c) || IsOtherCased(c)
  }

  function LowerChar(c: char): (d: char)
    ensures IsCased(d) == IsCased(c) && IsSpace(d) == IsSpace(c)
    ensures !IsUpper(d)
    ensures !IsUpper(c) ==> d == c
  {
    if IsUpper(c) then (c as int + 32) as char else c
  }

  function UpperChar(c: char): (d: char)
    ensures IsCased(d) == IsCased(c) && IsSpace(d) == IsSpace(c)
    ensures !IsLower(d)
    ensures !IsLower(c) ==> d == c
  {
    if IsLower(c) then (c as int - 32) as char else c
  }

  /** Upper-casing a character never changes what it lower-cases to. */
  lemma {:induction false} LowerUpper(c: char)
    ensures LowerChar(UpperChar(c)) == LowerChar(c)
  {
  }

  /** No upper-case character. */
  predicate Lowercase(s: String) {
    forall k :: 0 <= k < |s| ==> !IsUpper(s[k])
  }

  /** `s.lower()` */
  function Lower(s: String): (r: String)
    ensures |r| == |s| && Lowercase(r)
    ensures forall k :: 0 <= k < |s| ==> r[k] == LowerChar(s[k])
  {
    seq(|s|, k requires 0 <= k < |s| => LowerChar(s[k]))
  }

  // ---------------------------------------------------------------------------
  // strip, split, join

  predicate AllSpace(s: String) {
    forall k :: 0 <= k < |s| ==> IsSpace(s[k])
  }

  /** No whitespace at either end. */
  predicate Trimmed(s: String) {
    s == [] || (!IsSpace(s[0]) && !IsSpace(s[|s| - 1]))
  }

  /** The index of the first non-whitespace character of `s` at or after `i`. */
  function SkipSpace(s: String, i: nat): (n: nat)
    requires i <= |s|
    ensures i <= n <= |s|
    ensures forall k :: i <= k < n ==> IsSpace(s[k])
    ensures n < |s| ==> !IsSpace(s[n])
    decreases |s| - i
  {
    if i < |s| && IsSpace(s[i]) then SkipSpace(s, i + 1) else i
  }

  /** The end of `s[lo..hi]` once the whitespace at its end is cut away. */
  function TrimEnd(s: String, lo: nat, hi: nat): (e: nat)
    requires lo <= hi <= |s|
    ensures lo <= e <= hi
    ensures forall k :: e <= k < hi ==> IsSpace(s[k])
    ensures lo < e ==> !IsSpace(s[e - 1])
    decreases hi
  {
    if lo < hi && IsSpace(s[hi - 1]) then TrimEnd(s, lo, hi - 1) else hi
  }

  /** Where the text `strip` keeps starts. */
  function StripStart(s: String): nat {
    SkipSpace(s, 0)
  }

  /** Where the text `strip` keeps ends. */
  function StripEnd(s: String): (e: nat)
    ensures StripStart(s) <= e <= |s|
  {
    TrimEnd(s, StripStart(s), |s|)
  }

  /**
   * `s.strip()`: the result is the part of `s` left once the whitespace at
   * both ends is cut away.
   */
  function Strip(s: String): (r: String)
    ensures Trimmed(r)
    ensures |r| == StripEnd(s) - StripStart(s)
    ensures forall k :: 0 <= k < StripStart(s) ==> IsSpace(s[k])
    ensures forall k :: StripEnd(s) <= k < |s| ==> IsSpace(s[k])
    ensures forall k :: 0 <= k < |r| ==> r[k] == s[StripStart(s) + k]
  {
    s[StripStart(s)..StripEnd(s)]
  }

  /** Stripping a text that has no whitespace at its ends leaves it as it is. */
  lemma {:induction false} StripTrimmed(s: String)
    requires Trimmed(s)
    ensures Strip(s) == s
  {
    if s != [] {
      assert StripStart(s) == 0;
      assert TrimEnd(s, 0, |s|) == |s|;
    }
  }

  /** Whitespace before a trimmed text is all that `strip` removes. */
  lemma {:induction false} StripAfterSpace(t: String)
    requires Trimmed(t)
    ensures Strip(" " + t) == t
  {
    var s := " " + t;
    assert SkipSpace(s, 0) == SkipSpace(s, 1);
    if t != [] {
      assert SkipSpace(s, 1) == 1;
      assert TrimEnd(s, 1, |s|) == |s|;
    } else {
      assert SkipSpace(s, 1) == 1;
    }
    assert s[1..] == t;
  }

  /** Stripping keeps a lower-case text lower case. */
  lemma {:induction false} StripLowercase(s: String)
    requires Lowercase(s)
    ensures Lowercase(Strip(s))
  {
    var r := Strip(s);
    forall k | 0 <= k < |r| ensures !IsUpper(r[k]) {
      assert r[k] == s[StripStart(s) + k];
    }
  }

  /** Leading whitespace changes nothing once the text is stripped. */
  lemma {:induction false} StripSpacePrefix(s: String)
    requires s != [] && IsSpace(s[0])
    ensures Strip(s) == Strip(s[1..])
  {
    StripBoundsShift(s);
    SliceShift(s, StripStart(s[1..]), StripEnd(s[1..]));
  }

  /** Leading whitespace moves both ends of the kept text by one. */
  lemma {:induction false} StripBoundsShift(s: String)
    requires s != [] && IsSpace(s[0])
    ensures StripStart(s) == StripStart(s[1..]) + 1 && StripEnd(s) == StripEnd(s[1..]) + 1
  {
    var t := s[1..];
    SkipSpaceShift(s, 0);
    var a := SkipSpace(t, 0);
    assert StripStart(s) == SkipSpace(s, 1) == a + 1;
    TrimEndShift(s, a, |t|);
    assert StripEnd(s) == TrimEnd(s, a + 1, |t| + 1) == TrimEnd(t, a, |t|) + 1;
  }

  lemma {:induction false} SliceShift(s: String, a: nat, e: nat)
    requires s != [] && a <= e < |s|
    ensures s[a + 1..e + 1] == s[1..][a..e]
  {
    assert forall k :: 0 <= k < e - a ==> s[a + 1..e + 1][k] == s[1..][a..e][k];
  }

  lemma {:induction false} SkipSpaceShift(s: String, i: nat)
    requires s != [] && i < |s|
    ensures SkipSpace(s, i + 1) == SkipSpace(s[1..], i) + 1
    decreases |s| - i
  {
    if i + 1 < |s| {
      assert s[1..][i] == s[i + 1];
      if IsSpace(s[i + 1]) {
        SkipSpaceShift(s, i + 1);
      }
    }
  }

  lemma {:induction false} TrimEndShift(s: String, lo: nat, hi: nat)
    requires s != [] && lo <= hi < |s|
    ensures TrimEnd(s, lo + 1, hi + 1) == TrimEnd(s[1..], lo, hi) + 1
    decreases hi
  {
    if lo < hi {
      assert s[1..][hi - 1] == s[hi];
      if IsSpace(s[hi]) {
        TrimEndShift(s, lo, hi - 1);
      }
    }
  }

  /** A text strips to nothing exactly when it is all whitespace. */
  lemma {:induction false} StripEmpty(s: String)
    ensures Strip(s) == [] <==> AllSpace(s)
  {
    if AllSpace(s) {
      assert StripStart(s) == |s|;
    }
  }

  /** A word of `split()`: non-empty, no whitespace. */
  predicate IsWord(w: String) {
    w != [] && forall k :: 0 <= k < |w| ==> !IsSpace(w[k])
  }

  /** Length of the run of non-whitespace characters at the start of `s`. */
  function WordLen(s: String): (n: nat)
    ensures n <= |s|
    ensures forall k :: 0 <= k < n ==> !IsSpace(s[k])
    ensures n < |s| ==> IsSpace(s[n])
  {
    if s == [] || IsSpace(s[0]) then 0 else 1 + WordLen(s[1..])
  }

  /** `s.split()`: the maximal runs of non-whitespace characters, in order. */
  function Split(s: String): (ws: seq<String>)
    ensures forall i :: 0 <= i < |ws| ==> IsWord(ws[i])
    decreases |s|
  {
    if s == [] then []
    else if IsSpace(s[0]) then Split(s[1..])
    else
      var n := WordLen(s);
      [s[..n]] + Split(s[n..])
  }

  /** `' '.join(ws)` */
  function Join(ws: seq<String>): String {
    if ws == [] then []
    else if |ws| == 1 then ws[0]
    else ws[0] + " " + Join(ws[1..])
  }

  /**
   * No whitespace at either end, and every whitespace character is a plain
   * space followed by a non-space character.
   */
  predicate SingleSpaced(s: String) {
    Trimmed(s) &&
    forall k :: 0 <= k < |s| && IsSpace(s[k]) ==> s[k] == ' ' && k + 1 < |s| && !IsSpace(s[k + 1])
  }

  /** Joining words with single spaces gives single-spaced text. */
  lemma {:induction false} JoinSingleSpaced(ws: seq<String>)
    requires forall i :: 0 <= i < |ws| ==> IsWord(ws[i])
    ensures SingleSpaced(Join(ws))
  {
    if |ws| > 1 {
      JoinSingleSpaced(ws[1..]);
      var w, rest := ws[0], Join(ws[1..]);
      assert IsWord(ws[1]);
      assert rest != [] by { JoinNonEmpty(ws[1..]); }
      var s := w + " " + rest;
      assert Join(ws) == s;
      forall k | 0 <= k < |s| && IsSpace(s[k])
        ensures s[k] == ' ' && k + 1 < |s| && !IsSpace(s[k + 1])
      {
        if k == |w| {
          assert s[k + 1] == rest[0];
        } else {
          assert s[k] == rest[k - |w| - 1];
          assert k + 1 < |s| ==> s[k + 1] == rest[k - |w|];
        }
      }
      assert s[|s| - 1] == rest[|rest| - 1];
    }
  }

  lemma {:induction false} JoinNonEmpty(ws: seq<String>)
    requires ws != [] && IsWord(ws[0])
    ensures Join(ws) != []
  {
  }

  /** A word followed by whitespace (or nothing) splits off as one word. */
  lemma {:induction false} SplitWordThen(w: String, rest: String)
    requires IsWord(w)
    requires rest == [] || IsSpace(rest[0])
    ensures Split(w + rest) == [w] + Split(rest)
  {
    var s := w + rest;
    var n := WordLen(s);
    assert forall k :: 0 <= k < |w| ==> s[k] == w[k];
    assert |w| < |s| ==> s[|w|] == rest[0];
    assert n == |w|;
    assert s[..n] == w;
    assert s[n..] == rest;
  }

  /** `' '.join` then `split()` gives the words back: collapsing keeps every word. */
  lemma {:induction false} SplitJoin(ws: seq<String>)
    requires forall i :: 0 <= i < |ws| ==> IsWord(ws[i])
    ensures Split(Join(ws)) == ws
  {
    if |ws| == 1 {
      SplitWordThen(ws[0], []);
      assert ws[0] + [] == ws[0];
    } else if |ws| > 1 {
      var rest := " " + Join(ws[1..]);
      SplitWordThen(ws[0], rest);
      assert Join(ws) == ws[0] + rest;
      assert Split(rest) == Split(Join(ws[1..])) by {
        assert rest[1..] == Join(ws[1..]);
      }
      SplitJoin(ws[1..]);
      assert [ws[0]] + ws[1..] == ws;
    }
  }

  /** `split()` then `' '.join` gives back any single-spaced text. */
  lemma {:induction false} JoinSplit(s: String)
    requires SingleSpaced(s)
    ensures Join(Split(s)) == s
    decreases |s|
  {
    if s != [] {
      var n := WordLen(s);
      SplitFirstWord(s);
      if n < |s| {
        var w, t := s[..n], s[n + 1..];
        SpaceAfterWord(s, n);
        SplitSpaceThenWord(s[n..]);
        assert s[n..][1..] == t;
        assert Split(s) == [w] + Split(t);
        JoinSplit(t);
        JoinCons(w, Split(t));
      } else {
        assert s[..n] == s;
      }
    }
  }

  /** A text that starts with a word splits into that word and the words of the rest. */
  lemma {:induction false} SplitFirstWord(s: String)
    requires s != [] && !IsSpace(s[0])
    ensures Split(s) == [s[..WordLen(s)]] + Split(s[WordLen(s)..])
  {
  }

  /** A space followed by a word splits as the text after the space does, into at least that word. */
  lemma {:induction false} SplitSpaceThenWord(u: String)
    requires |u| >= 2 && IsSpace(u[0]) && !IsSpace(u[1])
    ensures Split(u) == Split(u[1..]) && Split(u[1..]) != []
  {
    SplitAfterSpace(u);
    SplitFirstWord(u[1..]);
  }

  /** The first word of a single-spaced text is followed by one space and a single-spaced remainder. */
  lemma {:induction false} SpaceAfterWord(s: String, n: nat)
    requires SingleSpaced(s) && n == WordLen(s) < |s|
    ensures s[n] == ' ' && n + 1 < |s| && !IsSpace(s[n + 1])
    ensures SingleSpaced(s[n + 1..])
    ensures s == s[..n] + " " + s[n + 1..]
  {
    var t := s[n + 1..];
    assert s == s[..n] + [s[n]] + t;
    assert IsSpace(s[n]);
    assert t[0] == s[n + 1] && t[|t| - 1] == s[|s| - 1];
    forall k | 0 <= k < |t| && IsSpace(t[k])
      ensures t[k] == ' ' && k + 1 < |t| && !IsSpace(t[k + 1])
    {
      assert t[k] == s[n + 1 + k];
      assert k + 1 < |t| ==> t[k + 1] == s[n + 2 + k];
    }
  }

  /** Leading whitespace contributes no word. */
  lemma {:induction false} SplitAfterSpace(s: String)
    requires s != [] && IsSpace(s[0])
    ensures Split(s) == Split(s[1..])
  {
  }

  /** Joining a word before a non-empty list puts one space between them. */
  lemma {:induction false} JoinCons(w: String, ws: seq<String>)
    requires ws != []
    ensures Join([w] + ws) == w + " " + Join(ws)
  {
    assert ([w] + ws)[1..] == ws;
  }

  /**
   * A whitespace character cuts the text in two: the words of the whole are
   * the words before it followed by the words after it. With `Split([]) == []`
   * and `SplitOfWord`, this fixes `split()` on every text.
   */
  lemma {:induction false} SplitAtSpace(a: String, c: char, b: String)
    requires IsSpace(c)
    ensures Split(a + [c] + b) == Split(a) + Split(b)
    decreases |a|
  {
    if a == [] {
      var s := a + [c] + b;
      assert s == [c] + b;
      SplitAfterSpace(s);
      assert s[1..] == b;
    } else if IsSpace(a[0]) {
      SplitAtSpace(a[1..], c, b);
      SplitAtSpaceAfterSpace(a, c, b);
    } else {
      var m := WordLen(a);
      var w, a' := a[..m], a[m..];
      assert a == w + a';
      SplitAtSpace(a', c, b);
      SplitAtSpaceAfterWord(w, a', c, b);
    }
  }

  /** The step of `SplitAtSpace` past leading whitespace. */
  lemma {:induction false} SplitAtSpaceAfterSpace(a: String, c: char, b: String)
    requires a != [] && IsSpace(a[0]) && IsSpace(c)
    requires Split(a[1..] + [c] + b) == Split(a[1..]) + Split(b)
    ensures Split(a + [c] + b) == Split(a) + Split(b)
  {
    var s := a + [c] + b;
    SplitAfterSpace(s);
    SplitAfterSpace(a);
    assert s[1..] == a[1..] + [c] + b;
  }

  /** The step of `SplitAtSpace` past the first word `w` of the text before the cut. */
  lemma {:induction false} SplitAtSpaceAfterWord(w: String, a: String, c: char, b: String)
    requires IsWord(w) && (a == [] || IsSpace(a[0])) && IsSpace(c)
    requires Split(a + [c] + b) == Split(a) + Split(b)
    ensures Split(w + a + [c] + b) == Split(w + a) + Split(b)
  {
    var u := a + [c] + b;
    assert w + a + [c] + b == w + u;
    assert u[0] == if a == [] then c else a[0];
    SplitWordThen(w, u);
    SplitWordThen(w, a);
  }

  /** A word splits into itself. */
  lemma {:induction false} SplitOfWord(w: String)
    requires IsWord(w)
    ensures Split(w) == [w]
  {
    SplitWordThen(w, []);
    assert w + [] == w;
  }

  /** A text of whitespace only has no words. */
  lemma {:induction false} SplitAllSpace(s: String)
    requires AllSpace(s)
    ensures Split(s) == []
    decreases |s|
  {
    if s != [] {
      SplitAfterSpace(s);
      SplitAllSpace(s[1..]);
    }
  }

  /** Whitespace before a text adds no words. */
  lemma {:induction false} SplitSpacesBefore(x: String, t: String)
    requires AllSpace(x)
    ensures Split(x + t) == Split(t)
  {
    if x != [] {
      var x' := x[..|x| - 1];
      assert x + t == x' + [x[|x| - 1]] + t;
      assert AllSpace(x') by {
        forall k | 0 <= k < |x'| ensures IsSpace(x'[k]) { assert x'[k] == x[k]; }
      }
      SplitAtSpace(x', x[|x| - 1], t);
      SplitAllSpace(x');
      assert [] + Split(t) == Split(t);
    } else {
      assert x + t == t;
    }
  }

  /** Whitespace after a text adds no words. */
  lemma {:induction false} SplitSpacesAfter(t: String, y: String)
    requires AllSpace(y)
    ensures Split(t + y) == Split(t)
  {
    if y != [] {
      assert t + y == t + [y[0]] + y[1..];
      assert AllSpace(y[1..]) by {
        forall k | 0 <= k < |y| - 1 ensures IsSpace(y[1..][k]) { assert y[1..][k] == y[k + 1]; }
      }
      SplitAtSpace(t, y[0], y[1..]);
      SplitAllSpace(y[1..]);
      assert Split(t) + [] == Split(t);
    } else {
      assert t + y == t;
    }
  }

  /** Whitespace on either side of a text adds no words. */
  lemma {:induction false} SplitPadded(x: String, m: String, y: String)
    requires AllSpace(x) && AllSpace(y)
    ensures Split(x + m + y) == Split(m)
  {
    SplitSpacesBefore(x, m + y);
    assert x + m + y == x + (m + y);
    SplitSpacesAfter(m, y);
  }

  /** `strip()` loses no word: `s.strip().split() == s.split()`. */
  lemma {:induction false} SplitStrip(s: String)
    ensures Split(Strip(s)) == Split(s)
  {
    StripPadding(s);
    SplitPadded(s[..StripStart(s)], Strip(s), s[StripEnd(s)..]);
  }

  /** A text is its strip with whitespace on either side. */
  lemma {:induction false} StripPadding(s: String)
    ensures AllSpace(s[..StripStart(s)]) && AllSpace(s[StripEnd(s)..])
    ensures s == s[..StripStart(s)] + Strip(s) + s[StripEnd(s)..]
  {
    var a, b := StripStart(s), StripEnd(s);
    assert s == s[..a] + s[a..b] + s[b..];
    StripSides(s, a, b);
  }

  lemma {:induction false} StripSides(s: String, a: nat, b: nat)
    requires a == StripStart(s) && b == StripEnd(s)
    ensures AllSpace(s[..a]) && AllSpace(s[b..])
  {
    forall k | 0 <= k < a ensures IsSpace(s[..a][k]) { assert s[..a][k] == s[k]; }
    forall k | 0 <= k < |s| - b ensures IsSpace(s[b..][k]) { assert s[b..][k] == s[b + k]; }
  }

  /** `' '.join(s.strip().split())`: the words of `s` separated by single spaces. */
  function Collapse(s: String): (r: String)
    ensures SingleSpaced(r)
    ensures Split(r) == Split(Strip(s)) == Split(s)
  {
    var ws := Split(Strip(s));
    JoinSingleSpaced(ws);
    SplitJoin(ws);
    SplitStrip(s);
    Join(ws)
  }

  /** Collapsing a text that is already single-spaced leaves it as it is. */
  lemma {:induction false} CollapseSingleSpaced(s: String)
    requires SingleSpaced(s)
    ensures Collapse(s) == s
  {
    StripTrimmed(s);
    JoinSplit(s);
  }

  // ---------------------------------------------------------------------------
  // capitalize, title

  /** The first character is not lower-case and no later character is upper-case. */
  predicate Capitalized(s: String) {
    (s != [] ==> !IsLower(s[0])) && forall k :: 1 <= k < |s| ==> !IsUpper(s[k])
  }

  /**
   * `s.capitalize()`: the same text up to case, with only the first
   * character upper-case.
   */
  function Capitalize(s: String): (r: String)
    ensures |r| == |s| && Lower(r) == Lower(s)
    ensures Capitalized(r)
  {
    if s == [] then []
    else
      var r := [UpperChar(s[0])] + Lower(s[1..]);
      LowerUpper(s[0]);
      r
  }

  /**
   * Every character is upper-case where no cased character precedes it and
   * lower-case where one does.
   */
  predicate TitleCased(s: String) {
    forall k :: 0 <= k < |s| ==>
      if k > 0 && IsCased(s[k - 1]) then !IsUpper(s[k]) else !IsLower(s[k])
  }

  /** `s.title()`: the same text up to case, with each run of cased characters starting upper-case. */
  function Title(s: String): (r: String)
    ensures |r| == |s| && Lower(r) == Lower(s)
    ensures TitleCased(r)
  {
    var r := seq(|s|, k requires 0 <= k < |s| => if k > 0 && IsCased(s[k - 1]) then LowerChar(s[k]) else UpperChar(s[k]));
    forall k | 0 <= k < |s| ensures LowerChar(r[k]) == LowerChar(s[k]) {
      LowerUpper(s[k]);
    }
    r
  }

  /** The ordinal indicator ª counts as cased, so the letter after it stays lower-case: `'ªb'.title() == 'ªb'`. */
  lemma {:induction false} TitleOrdinal()
    ensures Title([0xAA as char, 'b']) == [0xAA as char, 'b']
  {
    var s := [0xAA as char, 'b'];
    assert IsCased(s[0]);
    assert Title(s)[0] == UpperChar(s[0]) && Title(s)[1] == LowerChar(s[1]);
  }

  /** Case mapping moves no whitespace: a single-spaced text stays single-spaced. */
  lemma {:induction false} CapitalizeSingleSpaced(s: String)
    requires SingleSpaced(s)
    ensures SingleSpaced(Capitalize(s))
  {
    var r := Capitalize(s);
    forall k | 0 <= k < |s| ensures IsSpace(r[k]) == IsSpace(s[k]) && (IsSpace(s[k]) ==> r[k] == s[k]) {
      assert Lower(r)[k] == Lower(s)[k];
    }
  }

  /** Lower-casing a text with no upper-case character leaves it as it is. */
  lemma {:induction false} LowerOfLowercase(s: String)
    requires Lowercase(s)
    ensures Lower(s) == s
  {
  }

  /** Title-casing moves no whitespace: a trimmed text stays trimmed. */
  lemma {:induction false} TitleTrimmed(s: String)
    requires Trimmed(s)
    ensures Trimmed(Title(s))
  {
    var r := Title(s);
    if s != [] {
      assert Lower(r)[0] == Lower(s)[0];
      assert Lower(r)[|s| - 1] == Lower(s)[|s| - 1];
    }
  }

  // ---------------------------------------------------------------------------
  // startswith, in, find

  /** `s.startswith(p)` */
  predicate StartsWith(s: String, p: String) {
    |p| <= |s| && s[..|p|] == p
  }

  /** A text that starts with `x + y` starts with `x`. */
  lemma {:induction false} PrefixOfPrefix(s: String, x: String, y: String)
    requires StartsWith(s, x + y)
    ensures StartsWith(s, x)
  {
    assert s[..|x|] == (x + y)[..|x|];
  }

  /** `p` occurs in `s` at index `i`. */
  predicate OccursAt(s: String, p: String, i: int) {
    0 <= i && i + |p| <= |s| && s[i..i + |p|] == p
  }

  /** `s.find(p, i)`: the first occurrence of `p` in `s` at or after `i`. */
  function FindFrom(s: String, p: String, i: nat): (r: Option<nat>)
    requires i <= |s|
    ensures r.Some? ==> i <= r.value && OccursAt(s, p, r.value)
    ensures forall j :: i <= j && (r.None? || j < r.value) ==> !OccursAt(s, p, j)
    decreases |s| - i
  {
    if i + |p| > |s| then None
    else if s[i..i + |p|] == p then Some(i)
    else FindFrom(s, p, i + 1)
  }

  function Find(s: String, p: String): (r: Option<nat>)
    ensures r.Some? ==> OccursAt(s, p, r.value)
    ensures forall j :: 0 <= j && (r.None? || j < r.value) ==> !OccursAt(s, p, j)
  {
    FindFrom(s, p, 0)
  }

  /** `p in s` */
  predicate Contains(s: String, p: String) {
    Find(s, p).Some?
  }

  /** An occurrence in a piece of a text is an occurrence in the whole text. */
  lemma {:induction false} ContainsPiece(s: String, p: String, y: String, i: nat)
    requires i + |y| <= |s| && forall k :: 0 <= k < |y| ==> y[k] == s[i + k]
    requires Contains(y, p)
    ensures Contains(s, p)
  {
    var m := Find(y, p).value;
    forall k | 0 <= k < |p| ensures s[i + m + k] == p[k] {
      assert y[m..m + |p|][k] == y[m + k];
    }
    assert s[i + m..i + m + |p|] == p;
    assert OccursAt(s, p, i + m);
  }

  /** What does not occur in a text does not occur in the text stripped. */
  lemma {:induction false} StripAbsent(s: String, p: String)
    requires !Contains(s, p)
    ensures !Contains(Strip(s), p)
  {
    if Contains(Strip(s), p) {
      ContainsPiece(s, p, Strip(s), StripStart(s));
    }
  }

  /** Occurrences in a suffix are occurrences in the whole text, shifted. */
  lemma {:induction false} OccursInSuffix(s: String, p: String, d: nat, j: int)
    requires d <= |s| && 0 <= j
    ensures OccursAt(s[d..], p, j) <==> OccursAt(s, p, j + d)
  {
    if 0 <= j && j + |p| <= |s| - d {
      assert s[d..][j..j + |p|] == s[j + d..j + d + |p|];
    }
  }

  // ---------------------------------------------------------------------------
  // replace(p, "")

  /**
   * `s.replace(p, "")`: one left-to-right scan that deletes each
   * non-overlapping occurrence of `p`.
   */
  function Remove(s: String, p: String): String
    requires |p| > 0
    decreases |s|
  {
    if |s| < |p| then s
    else if s[..|p|] == p then Remove(s[|p|..], p)
    else [s[0]] + Remove(s[1..], p)
  }

  /** Deleting never lengthens the text. */
  lemma {:induction false} RemoveShorter(s: String, p: String)
    requires |p| > 0
    ensures |Remove(s, p)| <= |s|
    decreases |s|
  {
    if |s| < |p| {
    } else if s[..|p|] == p {
      RemoveShorter(s[|p|..], p);
    } else {
      RemoveShorter(s[1..], p);
    }
  }

  /** Deleting a pattern that does not occur changes nothing; otherwise the text shrinks by at least one pattern. */
  lemma {:induction false} RemoveEffect(s: String, p: String)
    requires |p| > 0
    ensures !Contains(s, p) ==> Remove(s, p) == s
    ensures Contains(s, p) ==> |Remove(s, p)| <= |s| - |p|
    decreases |s|
  {
    if |s| < |p| {
      assert Find(s, p).None?;
    } else if s[..|p|] == p {
      assert OccursAt(s, p, 0);
      RemoveShorter(s[|p|..], p);
    } else {
      assert !OccursAt(s, p, 0);
      FindShift(s, p);
      RemoveEffect(s[1..], p);
      assert [s[0]] + s[1..] == s;
    }
  }

  /** Where `p` does not start `s`, it occurs in `s` exactly when it occurs in `s[1..]`. */
  lemma {:induction false} FindShift(s: String, p: String)
    requires s != [] && !OccursAt(s, p, 0)
    ensures Contains(s, p) <==> Contains(s[1..], p)
  {
    var a, b := Find(s, p), Find(s[1..], p);
    if b.Some? {
      OccursInSuffix(s, p, 1, b.value);
    }
    if a.Some? {
      OccursInSuffix(s, p, 1, a.value - 1);
    }
  }

  // ---------------------------------------------------------------------------
  // split(sep)[-1]

  /**
   * Where the last piece of Python's left-to-right `split(sep)` starts, when
   * the scan for separators starts at `i`: just after the last separator the
   * scan cuts at, or `i` itself when there is none. No separator starts at or
   * after that index.
   */
  function PieceStart(s: String, sep: String, i: nat): (c: nat)
    requires |sep| > 0 && i <= |s|
    ensures i <= c <= |s|
    ensures forall j :: c <= j ==> !OccursAt(s, sep, j)
    ensures FindFrom(s, sep, i).None? ==> c == i
    ensures FindFrom(s, sep, i).Some? ==> OccursAt(s, sep, c - |sep|)
    decreases |s| - i
  {
    match FindFrom(s, sep, i)
    case None => i
    case Some(j) => PieceStart(s, sep, j + |sep|)
  }

  /** `s.split(sep)[-1]`: the piece after the last cut of Python's left-to-right split. */
  function SplitLast(s: String, sep: String): (r: String)
    requires |sep| > 0
  {
    s[PieceStart(s, sep, 0)..]
  }

  /**
   * The last piece is a suffix that holds no separator; it is the whole text
   * when the separator does not occur, and otherwise it follows an
   * occurrence of the separator.
   */
  lemma {:induction false} SplitLastSpec(s: String, sep: String)
    requires |sep| > 0
    ensures |SplitLast(s, sep)| <= |s| && SplitLast(s, sep) == s[|s| - |SplitLast(s, sep)|..]
    ensures !Contains(SplitLast(s, sep), sep)
    ensures Contains(s, sep) ==> OccursAt(s, sep, |s| - |SplitLast(s, sep)| - |sep|)
    ensures !Contains(s, sep) ==> SplitLast(s, sep) == s
  {
    SplitLastNoSep(s, sep);
  }

  /** No proper suffix of `p` is also a prefix of it, so two occurrences of `p` never overlap. */
  predicate SelfOverlapFree(p: String) {
    forall d :: 0 < d < |p| ==> p[d..] != p[..|p| - d]
  }

  /** Two occurrences of a self-overlap-free pattern are at least its length apart. */
  lemma {:induction false} OccurrencesApart(s: String, p: String, i: nat, j: nat)
    requires SelfOverlapFree(p) && OccursAt(s, p, i) && OccursAt(s, p, j) && i < j
    ensures i + |p| <= j
  {
    if j < i + |p| {
      OverlapBorder(s, p, i, j);
      assert false;
    }
  }

  /** Two overlapping occurrences of `p` make a proper suffix of `p` equal to a prefix of it. */
  lemma {:induction false} OverlapBorder(s: String, p: String, i: nat, j: nat)
    requires OccursAt(s, p, i) && OccursAt(s, p, j) && i < j < i + |p|
    ensures p[j - i..] == p[..|p| - (j - i)]
  {
    var d := j - i;
    assert s[i..i + |p|][d..] == s[j..i + |p|];
    assert s[j..j + |p|][..|p| - d] == s[j..i + |p|];
  }

  /**
   * For a separator that cannot overlap itself, the last piece of the split
   * is the text after the last occurrence of the separator.
   */
  lemma {:induction false} SplitLastAfterLast(s: String, sep: String)
    requires |sep| > 0 && SelfOverlapFree(sep) && Contains(s, sep)
    ensures var i := |s| - |SplitLast(s, sep)| - |sep|;
      OccursAt(s, sep, i) && SplitLast(s, sep) == s[i + |sep|..] &&
      forall j :: i < j ==> !OccursAt(s, sep, j)
  {
    var c := PieceStart(s, sep, 0);
    assert FindFrom(s, sep, 0).Some?;
    var i := c - |sep|;
    assert |SplitLast(s, sep)| == |s| - c;
    forall j | i < j ensures !OccursAt(s, sep, j) {
      if j < c && OccursAt(s, sep, j) {
        OccurrencesApart(s, sep, i, j);
      }
    }
  }

  lemma {:induction false} SplitLastNoSep(s: String, sep: String)
    requires |sep| > 0
    ensures !Contains(SplitLast(s, sep), sep)
  {
    var c := PieceStart(s, sep, 0);
    var r := s[c..];
    if Contains(r, sep) {
      var j := Find(r, sep).value;
      OccursInSuffix(s, sep, c, j);
      assert false;
    }
  }

  lemma {:induction false} SplitLastLowercase(s: String, sep: String)
    requires |sep| > 0 && Lowercase(s)
    ensures Lowercase(SplitLast(s, sep))
  {
    var c := PieceStart(s, sep, 0);
    forall k | 0 <= k < |s| - c ensures !IsUpper(s[c..][k]) {
      assert s[c..][k] == s[c + k];
    }
  }

  // ---------------------------------------------------------------------------
  // decimal formatting

  predicate IsDigit(c: char) {
    48 <= c as int <= 57
  }

  function DigitValue(c: char): nat
    requires IsDigit(c)
  {
    c as int - 48
  }

  /** `str(n)` for a natural number. */
  function DecimalString(n: nat): (r: String)
    ensures r != [] && forall k :: 0 <= k < |r| ==> IsDigit(r[k])
  {
    if n < 10 then [('0' as int + n) as char]
    else DecimalString(n / 10) + [('0' as int + n % 10) as char]
  }

  /** `int(s)` for a string of digits: the inverse of `DecimalString`. */
  function ParseDecimal(s: String): nat
    requires forall k :: 0 <= k < |s| ==> IsDigit(s[k])
  {
    if s == [] then 0
    else ParseDecimal(s[..|s| - 1]) * 10 + DigitValue(s[|s| - 1])
  }

  lemma {:induction false} DecimalRoundTrip(n: nat)
    ensures ParseDecimal(DecimalString(n)) == n
  {
    var r := DecimalString(n);
    if n >= 10 {
      DecimalRoundTrip(n / 10);
      assert r[..|r| - 1] == DecimalString(n / 10);
    }
  }
}
