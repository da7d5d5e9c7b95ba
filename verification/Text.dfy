/**
 * The few string operations the cleaning script and the request handler rely
 * on: Python's notion of whitespace (shared by `str.strip()` and the regular
 * expression class `\s` on `str` patterns), `strip`, an ASCII `lower`,
 * `startswith` and the substring test `sub in s`.
 */
module Text {

  /** Python's `str.isspace()` for a single character: the characters that
      `str.strip()` removes and that `\s` matches in a `str` pattern. */
  predicate IsSpace(c: char) {
    || ('\t' <= c <= '\r')            // tab, line feed, vertical tab, form feed, carriage return
    || ('\U{1C}' <= c <= '\U{1F}')    // file, group, record and unit separators
    || c == ' '
    || c == '\U{85}'
    || c == '\U{A0}'
    || c == '\U{1680}'
    || ('\U{2000}' <= c <= '\U{200A}')
    || c == '\U{2028}'
    || c == '\U{2029}'
    || c == '\U{202F}'
    || c == '\U{205F}'
    || c == '\U{3000}'
  }

  /** Where Python's whitespace differs from the obvious guesses: the
      control separators, the no-break space and the ideographic space count,
      the zero-width space and the byte-order mark do not. */
  lemma IsSpaceTable()
    ensures IsSpace(' ') && IsSpace('\t') && IsSpace('\n') && IsSpace('\r')
    ensures IsSpace('\U{1F}') && IsSpace('\U{A0}') && IsSpace('\U{3000}')
    ensures !IsSpace('a') && !IsSpace('\U{0}') && !IsSpace('\U{200B}') && !IsSpace('\U{FEFF}')
  {
  }

  /** Every character of `s` is whitespace (the empty string included): the
      strings matched in full by the pattern `^\s*$`. */
  predicate AllSpace(s: string) {
    forall i :: 0 <= i < |s| ==> IsSpace(s[i])
  }

  /** Removes leading whitespace. */
  function TrimLeft(s: string): (r: string)
    ensures |r| <= |s| && r == s[|s| - |r|..]
    ensures AllSpace(s[..|s| - |r|])
    ensures |r| > 0 ==> !IsSpace(r[0])
    decreases |s|
  {
    if |s| > 0 && IsSpace(s[0]) then
      var r := TrimLeft(s[1..]);
      assert s[..|s| - |r|] == [s[0]] + s[1..][..|s| - 1 - |r|];
      AllSpaceJoin([s[0]], s[1..][..|s| - 1 - |r|]);
      r
    else s
  }

  /** Removes trailing whitespace. */
  function TrimRight(s: string): (r: string)
    ensures |r| <= |s| && r == s[..|r|]
    ensures AllSpace(s[|r|..])
    ensures |r| > 0 ==> !IsSpace(r[|r| - 1])
    decreases |s|
  {
    if |s| > 0 && IsSpace(s[|s| - 1]) then
      var r := TrimRight(s[..|s| - 1]);
      assert s[|r|..] == s[..|s| - 1][|r|..] + [s[|s| - 1]];
      AllSpaceJoin(s[..|s| - 1][|r|..], [s[|s| - 1]]);
      r
    else s
  }

  /** Whitespace joined to whitespace is whitespace. */
  lemma AllSpaceJoin(a: string, b: string)
    requires AllSpace(a) && AllSpace(b)
    ensures AllSpace(a + b)
  {
    forall i | 0 <= i < |a + b| ensures IsSpace((a + b)[i]) {
      if i >= |a| {
        assert (a + b)[i] == b[i - |a|];
      }
    }
  }

  /** Python's `s.strip()` with no argument: the infix of `s` left once
      whitespace is removed from both ends. */
  function Strip(s: string): (r: string)
    ensures |r| <= |s|
    ensures |r| > 0 ==> !IsSpace(r[0]) && !IsSpace(r[|r| - 1])
  {
    TrimRight(TrimLeft(s))
  }

  /** `t` has no whitespace at either end, so nothing is left to strip. */
  predicate IsStripped(t: string) {
    |t| == 0 || (!IsSpace(t[0]) && !IsSpace(t[|t| - 1]))
  }

  lemma {:induction false} TrimLeftSkips(a: string, u: string)
    requires AllSpace(a)
    requires |u| == 0 || !IsSpace(u[0])
    ensures TrimLeft(a + u) == u
    decreases |a|
  {
    if |a| > 0 {
      assert (a + u)[0] == a[0];
      assert (a + u)[1..] == a[1..] + u;
      TrimLeftSkips(a[1..], u);
    } else {
      assert a + u == u;
    }
  }

  lemma {:induction false} TrimRightSkips(u: string, b: string)
    requires AllSpace(b)
    requires |u| == 0 || !IsSpace(u[|u| - 1])
    ensures TrimRight(u + b) == u
    decreases |b|
  {
    if |b| > 0 {
      assert (u + b)[|u + b| - 1] == b[|b| - 1];
      assert (u + b)[..|u + b| - 1] == u + b[..|b| - 1];
      TrimRightSkips(u, b[..|b| - 1]);
    } else {
      assert u + b == u;
    }
  }

  /** `Strip` is characterised by what it removes: wrapping a stripped
      string in whitespace on both sides and stripping gives it back. */
  lemma StripExact(a: string, t: string, b: string)
    requires AllSpace(a) && AllSpace(b) && IsStripped(t)
    ensures Strip(a + t + b) == t
  {
    if |t| == 0 {
      assert a + t + b == (a + b) + "";
      TrimLeftSkips(a + b, "");
    } else {
      assert a + t + b == a + (t + b);
      TrimLeftSkips(a, t + b);
      TrimRightSkips(t, b);
    }
  }

  /** A string with no whitespace at either end is its own strip. */
  lemma StrippedIsFixed(t: string)
    requires IsStripped(t)
    ensures Strip(t) == t
  {
    assert TrimLeft(t) == t;
    assert TrimRight(t) == t;
  }

  /** The string `Strip` returns is `s` less a whitespace prefix and a
      whitespace suffix. */
  lemma StripSplits(s: string) returns (a: string, b: string)
    ensures IsStripped(Strip(s))
    ensures AllSpace(a) && AllSpace(b) && s == a + Strip(s) + b
  {
    var l := TrimLeft(s);
    var r := TrimRight(l);
    a := s[..|s| - |l|];
    b := l[|r|..];
    Glue(s, l, r);
  }

  /** A suffix `l` of `s` and a prefix `r` of `l` cut `s` into three parts. */
  lemma Glue<T>(s: seq<T>, l: seq<T>, r: seq<T>)
    requires |l| <= |s| && l == s[|s| - |l|..]
    requires |r| <= |l| && r == l[..|r|]
    ensures s == s[..|s| - |l|] + r + l[|r|..]
  {
    assert l == r + l[|r|..];
    assert s == s[..|s| - |l|] + l;
  }

  /** Stripping twice is stripping once. */
  lemma StripIdempotent(s: string)
    ensures Strip(Strip(s)) == Strip(s)
  {
    StrippedIsFixed(Strip(s));
  }

  /** A string strips to nothing exactly when it is all whitespace, that is
      when it matches `^\s*$`. */
  lemma StripEmptyIffBlank(s: string)
    ensures Strip(s) == "" <==> AllSpace(s)
  {
    var a, b := StripSplits(s);
    if Strip(s) != "" {
      assert s[|a|] == Strip(s)[0];
      assert !AllSpace(s);
    } else {
      assert s == a + b;
      forall i | 0 <= i < |s| ensures IsSpace(s[i]) {
        if i < |a| { assert s[i] == a[i]; } else { assert s[i] == b[i - |a|]; }
      }
    }
  }

  /** ASCII upper-case letters map to lower case; every other character is
      left as it is. */
  function LowerChar(c: char): (d: char)
    ensures !('A' <= d <= 'Z')
    ensures d == c <==> !('A' <= c <= 'Z')
    ensures 'A' <= c <= 'Z' ==> 'a' <= d <= 'z' && d as int - 'a' as int == c as int - 'A' as int
  {
    if 'A' <= c <= 'Z' then (c as int + 32) as char else c
  }

  /** `s.lower()`, character by character. */
  function Lower(s: string): (r: string)
    ensures |r| == |s|
    ensures forall i :: 0 <= i < |s| ==> r[i] == LowerChar(s[i])
    ensures forall i :: 0 <= i < |r| ==> !('A' <= r[i] <= 'Z')
  {
    seq(|s|, i requires 0 <= i < |s| => LowerChar(s[i]))
  }

  /** Lower-casing an already lower-cased string changes nothing. */
  lemma LowerIdempotent(s: string)
    ensures Lower(Lower(s)) == Lower(s)
  {
    forall i | 0 <= i < |s| ensures Lower(Lower(s))[i] == Lower(s)[i] {
      var c := Lower(s)[i];
      assert !('A' <= c <= 'Z');
    }
  }

  /** The whole upper-case alphabet goes to the lower-case one, letter for
      letter. */
  lemma LowerTable()
    ensures Lower("ABCDEFGHIJKLMNOPQRSTUVWXYZ") == "abcdefghijklmnopqrstuvwxyz"
  {
  }

  /** Lower-casing leaves a text alone exactly when it has no upper-case
      ASCII letter: digits, spaces, accented letters and lower case are kept. */
  lemma LowerFixes(s: string)
    ensures Lower(s) == s <==> forall i :: 0 <= i < |s| ==> !('A' <= s[i] <= 'Z')
  {
    if Lower(s) == s {
      forall i | 0 <= i < |s| ensures !('A' <= s[i] <= 'Z') {
        assert Lower(s)[i] == s[i];
      }
    }
  }

  /** `s.startswith(p)`. */
  predicate StartsWith(s: string, p: string) {
    |p| <= |s| && s[..|p|] == p
  }

  /** Any text put after `p` starts with `p`. */
  lemma StartsWithConcat(p: string, t: string)
    ensures StartsWith(p + t, p)
  {
    assert (p + t)[..|p|] == p;
  }

  /** A text that starts with `p` is `p` followed by the rest. */
  lemma StartsWithSplits(s: string, p: string)
    requires StartsWith(s, p)
    ensures s == p + s[|p|..]
  {
    assert s == s[..|p|] + s[|p|..];
  }

  /** `sub` occurs in `s` starting at index `i`. */
  predicate OccursAt(s: string, sub: string, i: int) {
    0 <= i && i + |sub| <= |s| && s[i..i + |sub|] == sub
  }

  /** Python's `sub in s`: a left-to-right scan for the first position at
      which `s` starts with `sub`. */
  function Contains(s: string, sub: string): (r: bool)
    ensures r <==> exists i :: OccursAt(s, sub, i)
    decreases |s|
  {
    if StartsWith(s, sub) then
      assert OccursAt(s, sub, 0);
      true
    else if |s| == 0 then
      assert forall i :: !OccursAt(s, sub, i);
      false
    else
      var rest := s[1..];
      assert (exists i :: OccursAt(s, sub, i)) <==> exists j :: OccursAt(rest, sub, j) by {
        if i :| OccursAt(s, sub, i) {
          assert i != 0;
          OccursShift(s, sub, i - 1);
        }
        if j :| OccursAt(rest, sub, j) {
          OccursShift(s, sub, j);
        }
      }
      Contains(rest, sub)
  }

  /** An occurrence in the tail of `s` is an occurrence in `s` one position
      further on. */
  lemma OccursShift(s: string, sub: string, j: int)
    requires |s| > 0 && j >= 0
    ensures OccursAt(s[1..], sub, j) <==> OccursAt(s, sub, j + 1)
  {
    if j + 1 + |sub| <= |s| {
      assert s[1..][j..j + |sub|] == s[j + 1..j + 1 + |sub|];
    }
  }
}
