/** String helpers for the byte strings the game works on: ASCII lower-casing,
    `str.join`, `str.replace(pattern, "")` and substring occurrence. */
module Text {

  predicate IsUpper(c: char) {
    'A' <= c <= 'Z'
  }

  /** Python 2 `str.lower()` on one character: only ASCII letters change. */
  function LowerChar(c: char): (r: char)
    ensures !IsUpper(r)
    ensures !IsUpper(c) ==> r == c
    ensures IsUpper(c) ==> r as int == c as int + 32
  {
    if IsUpper(c) then (c as int + 32) as char else c
  }

  /** `s.lower()` */
  function Lower(s: string): (r: string)
    ensures |r| == |s|
    ensures forall i :: 0 <= i < |s| ==> r[i] == LowerChar(s[i])
  {
    seq(|s|, i requires 0 <= i < |s| => LowerChar(s[i]))
  }

  /** A string that lower-casing leaves unchanged. */
  predicate IsLowerCase(s: string) {
    forall c :: c in s ==> !IsUpper(c)
  }

  lemma LowerOfLowerCase(s: string)
    requires IsLowerCase(s)
    ensures Lower(s) == s
  {
  }

  lemma LowerIsLowerCase(s: string)
    ensures IsLowerCase(Lower(s))
    ensures Lower(Lower(s)) == Lower(s)
  {
    LowerOfLowerCase(Lower(s));
  }

  /** `sep.join(xs)` */
  function Join(sep: string, xs: seq<string>): (r: string)
    ensures |xs| == 0 ==> r == ""
    ensures |xs| == 1 ==> r == xs[0]
    ensures |xs| > 0 ==> |r| >= |xs[0]| && r[..|xs[0]|] == xs[0]
    decreases |xs|
  {
    if |xs| == 0 then ""
    else if |xs| == 1 then xs[0]
    else xs[0] + sep + Join(sep, xs[1..])
  }

  /** Appending one more element to a non-empty join adds the separator and the element. */
  lemma {:induction false} JoinAppend(sep: string, xs: seq<string>, x: string)
    requires |xs| > 0
    ensures Join(sep, xs + [x]) == Join(sep, xs) + sep + x
    decreases |xs|
  {
    var ys := xs + [x];
    assert ys[0] == xs[0];
    assert ys[1..] == xs[1..] + [x];
    JoinStep(sep, ys);
    if |xs| == 1 {
      assert ys[1..] == [x];
    } else {
      var rest := Join(sep, xs[1..]);
      JoinAppend(sep, xs[1..], x);
      JoinStep(sep, xs);
      Associate(xs[0] + sep, rest, sep + x);
    }
  }

  /** A join of two or more elements is the first, the separator and the join of the rest. */
  lemma JoinStep(sep: string, xs: seq<string>)
    requires |xs| > 1
    ensures Join(sep, xs) == xs[0] + sep + Join(sep, xs[1..])
  {
  }

  lemma Associate(a: string, b: string, c: string)
    ensures a + (b + c) == a + b + c
  {
  }

  /** A concatenation starts with its first part and ends with its last. */
  lemma Frame(a: string, b: string, c: string)
    ensures (a + b + c)[..|a|] == a
    ensures (a + b + c)[|a + b + c| - |c|..] == c
  {
  }

  /** `needle` occurs in `hay` starting at index `k`. */
  predicate OccursAt(needle: string, hay: string, k: int) {
    0 <= k && k + |needle| <= |hay| && hay[k..k + |needle|] == needle
  }

  /** Python's `needle in hay` on strings. */
  predicate Occurs(needle: string, hay: string) {
    exists k :: 0 <= k <= |hay| && OccursAt(needle, hay, k)
  }

  lemma OccursAtShift(needle: string, a: string, hay: string, b: string, k: int)
    requires OccursAt(needle, hay, k)
    ensures OccursAt(needle, a + hay + b, k + |a|)
  {
    var s := a + hay + b;
    assert s[k + |a| .. k + |a| + |needle|] == hay[k..k + |needle|];
  }

  /** An occurrence survives surrounding the string with more text. */
  lemma OccursInside(needle: string, a: string, hay: string, b: string)
    requires Occurs(needle, hay)
    ensures Occurs(needle, a + hay + b)
  {
    var k :| OccursAt(needle, hay, k);
    OccursAtShift(needle, a, hay, b, k);
  }

  lemma OccursSelf(s: string)
    ensures Occurs(s, s)
  {
    assert OccursAt(s, s, 0);
  }

  /** Every element of a join occurs in it. */
  lemma {:induction false} JoinContainsEach(sep: string, xs: seq<string>, i: int)
    requires 0 <= i < |xs|
    ensures Occurs(xs[i], Join(sep, xs))
    decreases |xs|
  {
    var joined := Join(sep, xs);
    if i == 0 {
      assert OccursAt(xs[0], joined, 0);
    } else {
      var rest := Join(sep, xs[1..]);
      assert joined == xs[0] + sep + rest + "";
      JoinContainsEach(sep, xs[1..], i - 1);
      OccursInside(xs[i], xs[0] + sep, rest, "");
    }
  }

  /** Python's `s.replace(pattern, "")`: one left-to-right scan that removes
      non-overlapping occurrences of `pattern`. */
  function RemoveAll(s: string, pattern: string): (r: string)
    requires |pattern| > 0
    ensures |r| <= |s|
    decreases |s|
  {
    if |s| == 0 then ""
    else if |pattern| <= |s| && s[..|pattern|] == pattern then RemoveAll(s[|pattern|..], pattern)
    else [s[0]] + RemoveAll(s[1..], pattern)
  }

  /** A string without any occurrence of the pattern comes back unchanged. */
  lemma {:induction false} RemoveAllWithoutPattern(s: string, pattern: string)
    requires |pattern| > 0
    requires !Occurs(pattern, s)
    ensures RemoveAll(s, pattern) == s
    decreases |s|
  {
    if |s| > 0 {
      if |pattern| <= |s| && s[..|pattern|] == pattern {
        assert OccursAt(pattern, s, 0);
        assert false;
      }
      if Occurs(pattern, s[1..]) {
        var k :| OccursAt(pattern, s[1..], k);
        assert [s[0]] + s[1..] + "" == s;
        OccursAtShift(pattern, [s[0]], s[1..], "", k);
        assert false;
      }
      RemoveAllWithoutPattern(s[1..], pattern);
      assert [s[0]] + s[1..] == s;
    }
  }

  /** A prefix without any occurrence of the pattern passes through unchanged
      when the text after it starts like the pattern and the pattern's first
      character appears nowhere else in it: no match can straddle the join. */
  lemma {:induction false} RemoveAllKeepsCleanPrefix(x: string, t: string, pattern: string)
    requires |pattern| > 0
    requires forall i :: 1 <= i < |pattern| ==> pattern[i] != pattern[0]
    requires !Occurs(pattern, x)
    requires |t| > 0 && t[0] == pattern[0]
    ensures RemoveAll(x + t, pattern) == x + RemoveAll(t, pattern)
    decreases |x|
  {
    if |x| == 0 {
      assert x + t == t;
    } else {
      var s := x + t;
      NoMatchAtCleanStart(x, t, pattern);
      CleanSuffix(x, pattern);
      assert s[1..] == x[1..] + t;
      RemoveAllKeepsCleanPrefix(x[1..], t, pattern);
      assert [x[0]] + x[1..] == x;
    }
  }

  /** Under the conditions above the scan finds no match at the start of `x + t`. */
  lemma NoMatchAtCleanStart(x: string, t: string, pattern: string)
    requires |pattern| > 0
    requires forall i :: 1 <= i < |pattern| ==> pattern[i] != pattern[0]
    requires !Occurs(pattern, x)
    requires |x| > 0 && |t| > 0 && t[0] == pattern[0]
    ensures !(|pattern| <= |x + t| && (x + t)[..|pattern|] == pattern)
  {
    var s := x + t;
    if |pattern| <= |s| {
      if |pattern| <= |x| {
        assert x[..|pattern|] == s[..|pattern|];
        assert !OccursAt(pattern, x, 0);
      } else {
        assert s[..|pattern|][|x|] == t[0];
        assert pattern[|x|] != pattern[0];
      }
    }
  }

  /** Dropping the first character cannot create an occurrence. */
  lemma CleanSuffix(x: string, pattern: string)
    requires |x| > 0 && !Occurs(pattern, x)
    ensures !Occurs(pattern, x[1..])
  {
    var y := x[1..];
    forall k | 0 <= k <= |y| ensures !OccursAt(pattern, y, k) {
      assert !OccursAt(pattern, x, k + 1);
      if k + |pattern| <= |y| {
        assert x[k + 1..k + 1 + |pattern|] == y[k..k + |pattern|];
      }
    }
  }

  /** A match at the start is dropped whole and the scan goes on after it. */
  lemma RemoveAllDropsLeading(pattern: string, y: string)
    requires |pattern| > 0
    ensures RemoveAll(pattern + y, pattern) == RemoveAll(y, pattern)
  {
    var s := pattern + y;
    assert s[..|pattern|] == pattern;
    assert s[|pattern|..] == y;
  }

  /** Removing a pattern from itself leaves nothing. */
  lemma RemoveAllSelf(pattern: string)
    requires |pattern| > 0
    ensures RemoveAll(pattern, pattern) == ""
  {
    assert pattern[..|pattern|] == pattern;
  }

  /** A string none of whose characters starts the needle does not contain it. */
  lemma AbsentFirstChar(needle: string, hay: string)
    requires |needle| > 0
    requires forall i :: 0 <= i < |hay| ==> hay[i] != needle[0]
    ensures !Occurs(needle, hay)
  {
    forall k | 0 <= k <= |hay| ensures !OccursAt(needle, hay, k) {
      if k + |needle| <= |hay| {
        assert hay[k..k + |needle|][0] == hay[k];
      }
    }
  }
}
