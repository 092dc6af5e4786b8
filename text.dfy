/**
 * The few Python `str` operations the loader and the report generator rely on:
 * `str.replace`, `str.split(sep)`, `sep.join(...)` and `str.strip()`.
 * Strings are sequences of Unicode code points, as Python's are, so `|s|`
 * is Python's `len(s)`.
 */
module Text {

  // ---------------------------------------------------------------------
  // str.replace(old, new): every occurrence, non-overlapping, left to right
  // ---------------------------------------------------------------------

  /** `p` occurs in `s` starting at index `i`. */
  predicate OccursAt(s: string, p: string, i: nat) {
    i + |p| <= |s| && s[i..i + |p|] == p
  }

  /** `p in s`, Python's substring test. */
  predicate Contains(s: string, p: string) {
    exists i: nat | i <= |s| :: OccursAt(s, p, i)
  }

  /**
   * `s.replace(p, n)` for a non-empty `p`: scan from the left; where `p`
   * starts, emit `n` and resume after the match, otherwise emit one
   * character and move on. Replaced text is never rescanned.
   */
  function ReplaceAll(s: string, p: string, n: string): string
    requires |p| > 0
    decreases |s|
  {
    if |s| < |p| then s
    else if s[..|p|] == p then n + ReplaceAll(s[|p|..], p, n)
    else [s[0]] + ReplaceAll(s[1..], p, n)
  }

  /** A match at the front is replaced and scanning resumes after it. */
  lemma ReplaceAtFront(p: string, b: string, n: string)
    requires |p| > 0
    ensures ReplaceAll(p + b, p, n) == n + ReplaceAll(b, p, n)
  {
    assert (p + b)[..|p|] == p;
    assert (p + b)[|p|..] == b;
  }

  /** Text without any occurrence of the pattern comes back unchanged. */
  lemma {:induction false} ReplaceAbsent(s: string, p: string, n: string)
    requires |p| > 0
    requires !Contains(s, p)
    ensures ReplaceAll(s, p, n) == s
    decreases |s|
  {
    if |s| >= |p| {
      assert !OccursAt(s, p, 0);
      assert s[..|p|] != p;
      forall i: nat | i <= |s[1..]| && OccursAt(s[1..], p, i)
        ensures false
      {
        assert s[1..][i..i + |p|] == s[i + 1..i + 1 + |p|];
        assert OccursAt(s, p, i + 1);
      }
      ReplaceAbsent(s[1..], p, n);
      assert [s[0]] + s[1..] == s;
    }
  }

  /**
   * A prefix that does not hold the pattern's first character cannot start
   * a match, so it is copied as it is.
   */
  lemma {:induction false} ReplaceSkipsPrefix(a: string, b: string, p: string, n: string)
    requires |p| > 0
    requires p[0] !in a
    ensures ReplaceAll(a + b, p, n) == a + ReplaceAll(b, p, n)
    decreases |a|
  {
    if a != [] {
      var s := a + b;
      assert a[0] in a;
      assert p[0] !in a[1..] by {
        forall x | x in a[1..] ensures x in a { }
      }
      if |s| >= |p| {
        assert s[..|p|][0] == a[0] != p[0];
        assert s[1..] == a[1..] + b;
        ReplaceSkipsPrefix(a[1..], b, p, n);
        calc {
          ReplaceAll(s, p, n);
          [s[0]] + ReplaceAll(s[1..], p, n);
          [a[0]] + (a[1..] + ReplaceAll(b, p, n));
          { assert [a[0]] + a[1..] == a; }
          a + ReplaceAll(b, p, n);
        }
      } else {
        assert |b| < |p|;
        assert ReplaceAll(b, p, n) == b;
      }
    } else {
      assert a + b == b;
    }
  }

  /** The special case of `ReplaceSkipsPrefix` with nothing after the text. */
  lemma ReplaceWithoutFirstChar(a: string, p: string, n: string)
    requires |p| > 0
    requires p[0] !in a
    ensures ReplaceAll(a, p, n) == a
  {
    ReplaceSkipsPrefix(a, [], p, n);
    assert a + [] == a;
  }

  /**
   * When the text after the seam starts with a character that is not in the
   * pattern, no match straddles the seam, so both sides are replaced on
   * their own.
   */
  lemma {:induction false} ReplaceSplits(a: string, b: string, p: string, n: string)
    requires |p| > 0
    requires b != [] && b[0] !in p
    ensures ReplaceAll(a + b, p, n) == ReplaceAll(a, p, n) + ReplaceAll(b, p, n)
    decreases |a|
  {
    var s := a + b;
    if a == [] {
      assert s == b;
    } else if |s| < |p| {
      assert ReplaceAll(b, p, n) == b;
      ReplaceWithoutTail(a, p, n);
    } else if |a| < |p| {
      assert ReplaceAll(s, p, n) == [a[0]] + ReplaceAll(a[1..] + b, p, n) by {
        SeamMismatch(a, b, p);
        assert s[1..] == a[1..] + b;
      }
      ReplaceSplits(a[1..], b, p, n);
      ReplaceWithoutTail(a[1..], p, n);
      ReplaceWithoutTail(a, p, n);
      assert [a[0]] + a[1..] == a;
    } else if a[..|p|] == p {
      assert ReplaceAll(s, p, n) == n + ReplaceAll(a[|p|..] + b, p, n) by {
        assert s[..|p|] == p;
        assert s[|p|..] == a[|p|..] + b;
      }
      ReplaceSplits(a[|p|..], b, p, n);
    } else {
      assert ReplaceAll(s, p, n) == [a[0]] + ReplaceAll(a[1..] + b, p, n) by {
        assert s[..|p|] == a[..|p|];
        assert s[1..] == a[1..] + b;
      }
      ReplaceSplits(a[1..], b, p, n);
    }
  }

  /**
   * Text enclosed between a prefix and a closing part that cannot take part
   * in a match is replaced on its own, and so is the text after it.
   */
  lemma ReplaceInside(pre: string, x: string, close: string, post: string, p: string, n: string)
    requires |p| > 0 && p[0] !in pre && p[0] !in close
    requires close != [] && close[0] !in p
    ensures ReplaceAll(pre + x + close + post, p, n) ==
      pre + ReplaceAll(x, p, n) + close + ReplaceAll(post, p, n)
  {
    assert pre + x + close + post == pre + (x + (close + post));
    ReplaceSkipsPrefix(pre, x + (close + post), p, n);
    ReplaceSplits(x, close + post, p, n);
    ReplaceSkipsPrefix(close, post, p, n);
  }

  /** A match that would reach past the seam would have to contain the first character after it. */
  lemma SeamMismatch(a: string, b: string, p: string)
    requires b != [] && b[0] !in p
    requires |a| < |p| <= |a + b|
    ensures (a + b)[..|p|] != p
  {
    assert p[|a|] in p;
    assert (a + b)[..|p|][|a|] == b[0] != p[|a|];
  }

  /** Text shorter than the pattern is left as it is. */
  lemma ReplaceWithoutTail(a: string, p: string, n: string)
    requires |p| > 0 && |a| < |p|
    ensures ReplaceAll(a, p, n) == a
  {
  }

  /**
   * A template placeholder: `{`, a name with no braces, `}`.
   */
  predicate Placeholder(q: string) {
    |q| >= 2 && q[0] == '{' && q[|q| - 1] == '}' &&
    '{' !in q[1..|q| - 1] && '}' !in q[1..|q| - 1]
  }

  /** Two different placeholders never match at the same position. */
  lemma PlaceholderMismatch(q: string, b: string, p: string)
    requires Placeholder(q) && Placeholder(p) && q != p
    requires |q + b| >= |p|
    ensures (q + b)[..|p|] != p
  {
    var w := (q + b)[..|p|];
    if |p| < |q| {
      assert q[1..|q| - 1][|p| - 2] == q[|p| - 1];
      assert w[|p| - 1] == q[|p| - 1] != '}';
    } else if |p| == |q| {
      assert w == q;
    } else {
      assert w[|q| - 1] == q[|q| - 1] == '}';
      assert p[1..|p| - 1][|q| - 2] == p[|q| - 1];
      assert p[|q| - 1] != '}';
    }
  }

  /** After its opening brace, a placeholder holds no other `{`. */
  lemma PlaceholderTail(q: string)
    requires Placeholder(q)
    ensures '{' !in q[1..]
  {
    assert q[1..] == q[1..|q| - 1] + [q[|q| - 1]];
  }

  /**
   * A placeholder is never matched by a different placeholder, so replacing
   * one placeholder leaves the others in place.
   */
  lemma PlaceholderSurvives(q: string, b: string, p: string, n: string)
    requires Placeholder(q) && Placeholder(p) && q != p
    ensures ReplaceAll(q + b, p, n) == q + ReplaceAll(b, p, n)
  {
    var s := q + b;
    if |s| < |p| {
      assert ReplaceAll(b, p, n) == b;
    } else {
      PlaceholderMismatch(q, b, p);
      PlaceholderTail(q);
      assert s[1..] == q[1..] + b;
      ReplaceSkipsPrefix(q[1..], b, p, n);
      calc {
        ReplaceAll(s, p, n);
        [q[0]] + ReplaceAll(q[1..] + b, p, n);
        [q[0]] + (q[1..] + ReplaceAll(b, p, n));
        { assert [q[0]] + q[1..] == q; }
        q + ReplaceAll(b, p, n);
      }
    }
  }

  /**
   * Text made of a `{`-free part, another placeholder and text the
   * replacement leaves alone is left alone as a whole.
   */
  lemma PlaceholderKept(c: string, q: string, d: string, p: string, n: string)
    requires Placeholder(q) && Placeholder(p) && q != p
    requires '{' !in c
    requires ReplaceAll(d, p, n) == d
    ensures ReplaceAll(c + (q + d), p, n) == c + (q + d)
  {
    ReplaceSkipsPrefix(c, q + d, p, n);
    PlaceholderSurvives(q, d, p, n);
  }

  // ---------------------------------------------------------------------
  // sep.join(xs) and s.split(c)
  // ---------------------------------------------------------------------

  /** `sep.join(xs)`: the pieces in order, with `sep` between neighbours. */
  function Join(xs: seq<string>, sep: string): string
    decreases |xs|
  {
    if |xs| == 0 then ""
    else if |xs| == 1 then xs[0]
    else xs[0] + sep + Join(xs[1..], sep)
  }

  /**
   * `s.split(c)` with an explicit one-character separator: the maximal runs
   * between separators, empty ones included. There is always at least one
   * piece, and no piece holds the separator.
   */
  function Split(s: string, c: char): (r: seq<string>)
    ensures |r| >= 1
    ensures forall k :: 0 <= k < |r| ==> c !in r[k]
    decreases |s|
  {
    if s == [] then [""]
    else
      var rest := Split(s[1..], c);
      if s[0] == c then [""] + rest
      else [[s[0]] + rest[0]] + rest[1..]
  }

  /** Joining the pieces of a split with the separator gives back the text. */
  lemma {:induction false} JoinSplit(s: string, c: char)
    ensures Join(Split(s, c), [c]) == s
    decreases |s|
  {
    if s != [] {
      var rest := Split(s[1..], c);
      JoinSplit(s[1..], c);
      if s[0] == c {
        assert Split(s, c) == [""] + rest;
        assert ([""] + rest)[1..] == rest;
        assert [s[0]] + s[1..] == s;
      } else {
        var r := [[s[0]] + rest[0]] + rest[1..];
        assert Split(s, c) == r;
        if |rest| == 1 {
          assert [s[0]] + s[1..] == s;
        } else {
          assert r[1..] == rest[1..];
          assert Join(rest, [c]) == rest[0] + [c] + Join(rest[1..], [c]);
          assert [s[0]] + s[1..] == s;
        }
      }
    }
  }

  /**
   * Conversely, splitting a join of separator-free pieces gives back the
   * pieces.
   */
  lemma {:induction false} SplitJoin(xs: seq<string>, c: char)
    requires |xs| >= 1
    requires forall k :: 0 <= k < |xs| ==> c !in xs[k]
    ensures Split(Join(xs, [c]), c) == xs
    decreases |xs|
  {
    if |xs| == 1 {
      SplitFree(xs[0], c, []);
      assert xs[0] + [] == xs[0];
      assert Split([], c) == [""];
    } else {
      SplitJoin(xs[1..], c);
      var tail := [c] + Join(xs[1..], [c]);
      assert Join(xs, [c]) == xs[0] + tail;
      assert Split(tail, c) == [""] + xs[1..] by {
        assert tail[0] == c && tail[1..] == Join(xs[1..], [c]);
      }
      SplitFree(xs[0], c, tail);
      assert xs[0] + "" == xs[0];
      assert ([""] + xs[1..])[1..] == xs[1..];
      assert [xs[0]] + xs[1..] == xs;
    }
  }

  /**
   * A separator-free prefix is glued onto the first piece of what follows.
   */
  lemma {:induction false} SplitFree(a: string, c: char, b: string)
    requires c !in a
    ensures Split(a + b, c) == [a + Split(b, c)[0]] + Split(b, c)[1..]
    decreases |a|
  {
    var sb := Split(b, c);
    if a != [] {
      assert a[0] in a;
      assert c !in a[1..] by {
        forall x | x in a[1..] ensures x in a { }
      }
      var s := a + b;
      assert s[0] == a[0] != c;
      assert s[1..] == a[1..] + b;
      SplitFree(a[1..], c, b);
      var rest := Split(s[1..], c);
      assert rest == [a[1..] + sb[0]] + sb[1..];
      assert Split(s, c) == [[s[0]] + rest[0]] + rest[1..];
      assert rest[1..] == sb[1..];
      assert [a[0]] + (a[1..] + sb[0]) == a + sb[0];
    } else {
      assert a + b == b;
      assert a + sb[0] == sb[0];
      assert [sb[0]] + sb[1..] == sb;
    }
  }

  // ---------------------------------------------------------------------
  // str.strip()
  // ---------------------------------------------------------------------

  /** The code points for which Python's `str.isspace()` holds. */
  const Whitespace: set<char> := {
    ' ', '\t', '\n', '\U{0B}', '\U{0C}', '\r', '\U{1C}', '\U{1D}', '\U{1E}', '\U{1F}',
    '\U{85}', '\U{A0}', '\U{1680}',
    '\U{2000}', '\U{2001}', '\U{2002}', '\U{2003}', '\U{2004}', '\U{2005}',
    '\U{2006}', '\U{2007}', '\U{2008}', '\U{2009}', '\U{200A}',
    '\U{2028}', '\U{2029}', '\U{202F}', '\U{205F}', '\U{3000}'
  }

  /** Python's `str.isspace()` for one code point. */
  predicate IsSpace(ch: char) {
    ch in Whitespace
  }


  /** `s.lstrip()`: drops the leading whitespace and nothing else. */
  function StripLeft(s: string): (r: string)
    ensures |r| <= |s| && r == s[|s| - |r|..]
    decreases |s|
  {
    if s != [] && IsSpace(s[0]) then StripLeft(s[1..]) else s
  }

  /** `lstrip` drops only leading whitespace, and all of it. */
  lemma {:induction false} StripLeftSpec(s: string)
    ensures forall i :: 0 <= i < |s| - |StripLeft(s)| ==> IsSpace(s[i])
    ensures StripLeft(s) == [] || !IsSpace(StripLeft(s)[0])
    decreases |s|
  {
    if s != [] && IsSpace(s[0]) {
      StripLeftSpec(s[1..]);
      assert forall i :: 1 <= i < |s| - |StripLeft(s)| ==> s[i] == s[1..][i - 1];
    }
  }

  /** `s.rstrip()`: drops the trailing whitespace and nothing else. */
  function StripRight(s: string): (r: string)
    ensures |r| <= |s| && r == s[..|r|]
    decreases |s|
  {
    if s != [] && IsSpace(s[|s| - 1]) then StripRight(s[..|s| - 1]) else s
  }

  /** `rstrip` drops only trailing whitespace, and all of it. */
  lemma {:induction false} StripRightSpec(s: string)
    ensures forall i :: |StripRight(s)| <= i < |s| ==> IsSpace(s[i])
    ensures StripRight(s) == [] || !IsSpace(StripRight(s)[|StripRight(s)| - 1])
    decreases |s|
  {
    if s != [] && IsSpace(s[|s| - 1]) {
      StripRightSpec(s[..|s| - 1]);
      assert forall i :: |StripRight(s)| <= i < |s| - 1 ==> s[i] == s[..|s| - 1][i];
    }
  }

  /** `s.strip()`. */
  function Strip(s: string): string {
    StripRight(StripLeft(s))
  }

  /** Text that neither starts nor ends with whitespace is not changed by strip. */
  lemma StripKeeps(s: string)
    requires s == [] || (!IsSpace(s[0]) && !IsSpace(s[|s| - 1]))
    ensures Strip(s) == s
  {
  }
}
