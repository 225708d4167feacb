/**
 * The pieces of Python's `str` that the alert engine and the dashboard rely on:
 * `isspace`, `isdigit`, `isalpha`, `strip`, `splitlines`, `"\n".join` and the
 * substring test `p in s`, all on strings of Unicode characters.
 */
module Text {

  /** `c.isspace()`: the characters Python treats as whitespace. */
  predicate IsSpace(c: char) {
    || c == ' '
    || '\t' <= c <= '\r'
    || '\U{1C}' <= c <= '\U{1F}'
    || c == '\U{85}' || c == '\U{A0}' || c == '\U{1680}'
    || '\U{2000}' <= c <= '\U{200A}'
    || c == '\U{2028}' || c == '\U{2029}' || c == '\U{202F}' || c == '\U{205F}'
    || c == '\U{3000}'
  }

  /** The characters at which `str.splitlines` ends a line. */
  predicate IsLineBreak(c: char) {
    || '\n' <= c <= '\r'
    || '\U{1C}' <= c <= '\U{1E}'
    || c == '\U{85}' || c == '\U{2028}' || c == '\U{2029}'
  }

  /** `c.isdigit()`, restricted to ASCII and full-width digits. */
  predicate IsDigit(c: char) {
    '0' <= c <= '9' || '\U{FF10}' <= c <= '\U{FF19}'
  }

  /** `c.isalpha()`, restricted to Latin letters (ASCII and full-width), kana and CJK ideographs. */
  predicate IsAlpha(c: char) {
    || 'A' <= c <= 'Z' || 'a' <= c <= 'z'
    || '\U{FF21}' <= c <= '\U{FF3A}' || '\U{FF41}' <= c <= '\U{FF5A}'
    || '\U{3041}' <= c <= '\U{3096}' || '\U{30A1}' <= c <= '\U{30FA}'
    || '\U{30FC}' <= c <= '\U{30FF}' || '\U{4E00}' <= c <= '\U{9FFF}'
  }

  lemma LineBreakIsSpace(c: char)
    ensures IsLineBreak(c) ==> IsSpace(c)
  {
  }

  lemma DigitIsNotAlpha(c: char)
    ensures !(IsDigit(c) && IsAlpha(c))
  {
  }

  /** A string that `splitlines` would keep on one line. */
  predicate NoBreaks(s: string) {
    forall i :: 0 <= i < |s| ==> !IsLineBreak(s[i])
  }

  /** No empty string: every item is truthy in Python. */
  predicate NonBlank(xs: seq<string>) {
    forall k :: 0 <= k < |xs| ==> xs[k] != ""
  }

  /** No string occurs twice. */
  predicate Distinct(xs: seq<string>) {
    forall i, j :: 0 <= i < j < |xs| ==> xs[i] != xs[j]
  }

  /** A string with no whitespace at either end, as `strip` leaves it. */
  predicate Stripped(s: string) {
    s == [] || (!IsSpace(s[0]) && !IsSpace(s[|s| - 1]))
  }

  /** Where `lstrip` cuts: the index of the first non-whitespace character, or `|s|`. */
  function Lead(s: string): (i: nat)
    ensures i <= |s|
    ensures i < |s| ==> !IsSpace(s[i])
    ensures forall k :: 0 <= k < i ==> IsSpace(s[k])
  {
    if s == [] || !IsSpace(s[0]) then 0 else 1 + Lead(s[1..])
  }

  /** Where `rstrip` cuts `s[lo..hi]`: the end of its last non-whitespace character, or `lo`. */
  function Trail(s: string, lo: nat, hi: nat): (j: nat)
    requires lo <= hi <= |s|
    ensures lo <= j <= hi
    ensures j > lo ==> !IsSpace(s[j - 1])
    ensures forall k :: j <= k < hi ==> IsSpace(s[k])
    decreases hi
  {
    if hi == lo || !IsSpace(s[hi - 1]) then hi else Trail(s, lo, hi - 1)
  }

  /** `s.strip()`: the longest infix of `s` with no whitespace at either end. */
  function Strip(s: string): (r: string)
    ensures Stripped(r)
    ensures |r| <= |s|
  {
    s[Lead(s)..Trail(s, Lead(s), |s|)]
  }

  /** A string strips to nothing exactly when it is all whitespace. */
  lemma StripBlank(s: string)
    ensures Strip(s) == [] <==> forall i :: 0 <= i < |s| ==> IsSpace(s[i])
  {
    var i := Lead(s);
    var j := Trail(s, i, |s|);
    if Strip(s) == [] {
      assert j == i;
    }
  }

  /** Stripping a line with no line break cannot introduce one. */
  lemma StripNoBreaks(s: string)
    requires NoBreaks(s)
    ensures NoBreaks(Strip(s))
  {
    var i := Lead(s);
    var r := Strip(s);
    forall k | 0 <= k < |r| ensures !IsLineBreak(r[k]) {
      assert r[k] == s[i + k];
    }
  }

  /** `strip` leaves an already stripped string alone, so it is idempotent. */
  lemma StripOfStripped(s: string)
    requires Stripped(s)
    ensures Strip(s) == s
  {
    if s != [] {
      assert Lead(s) == 0;
      assert Trail(s, 0, |s|) == |s|;
    }
  }

  lemma StripIdempotent(s: string)
    ensures Strip(Strip(s)) == Strip(s)
  {
    StripOfStripped(Strip(s));
  }

  /** When `q` is a prefix of `s` that starts with, and is followed by, a
      non-whitespace character, stripping `s` keeps `q` as a prefix. */
  lemma StripKeepsPrefix(s: string, q: string)
    requires q <= s && 0 < |q| < |s|
    requires !IsSpace(q[0]) && !IsSpace(s[|q|])
    ensures q <= Strip(s)
  {
    assert s[0] == q[0];
    assert Lead(s) == 0;
    var j := Trail(s, 0, |s|);
    assert j > |q|;
    assert Strip(s) == s[..j];
  }

  /** A string that starts with a non-whitespace character loses nothing at the front. */
  lemma StripIsPrefix(s: string)
    requires s != [] && !IsSpace(s[0])
    ensures Strip(s) <= s
  {
    assert Lead(s) == 0;
  }

  /** A trailing whitespace character is always cut. */
  lemma StripDropsTrailingSpace(x: string, c: char)
    requires x != [] && !IsSpace(x[0]) && IsSpace(c)
    ensures Strip(x + [c]) <= x
  {
    var s := x + [c];
    assert s[0] == x[0];
    assert Lead(s) == 0;
    assert Trail(s, 0, |s|) == Trail(s, 0, |x|);
    assert s[..|x|] == x;
  }

  /** Index of the first line-break character of `s`, or `|s|` if none. */
  function FirstBreak(s: string): (i: nat)
    ensures i <= |s|
    ensures i < |s| ==> IsLineBreak(s[i])
    ensures forall k :: 0 <= k < i ==> !IsLineBreak(s[k])
  {
    if s == [] || IsLineBreak(s[0]) then 0 else 1 + FirstBreak(s[1..])
  }

  /**
   * `s.splitlines()`: the lines of `s` without their line endings, where
   * "\r\n" counts as one ending and a final ending does not start a new,
   * empty line ("" has no lines, "a\n" has one).
   */
  function SplitLines(s: string): (lines: seq<string>)
    ensures forall k :: 0 <= k < |lines| ==> NoBreaks(lines[k])
    decreases |s|
  {
    if s == [] then []
    else
      var i := FirstBreak(s);
      if i == |s| then [s]
      else
        var next := if s[i] == '\r' && i + 1 < |s| && s[i + 1] == '\n' then i + 2 else i + 1;
        [s[..i]] + SplitLines(s[next..])
  }

  /** `"\n".join(xs)`. */
  function JoinLines(xs: seq<string>): (s: string)
    ensures |s| >= |xs| - 1
  {
    if xs == [] then ""
    else if |xs| == 1 then xs[0]
    else xs[0] + "\n" + JoinLines(xs[1..])
  }

  /** Joining non-empty lines with "\n" and splitting again gives the lines back. */
  lemma {:induction false} SplitJoin(xs: seq<string>)
    requires forall k :: 0 <= k < |xs| ==> xs[k] != [] && NoBreaks(xs[k])
    ensures SplitLines(JoinLines(xs)) == xs
  {
    if xs == [] {
    } else if |xs| == 1 {
      FirstBreakNone(xs[0]);
    } else {
      var s := JoinLines(xs);
      var tail := JoinLines(xs[1..]);
      assert s == xs[0] + ("\n" + tail);
      FirstBreakAt(xs[0], "\n" + tail);
      assert s[..|xs[0]|] == xs[0];
      assert s[|xs[0]| + 1..] == tail;
      SplitJoin(xs[1..]);
    }
  }

  lemma {:induction false} FirstBreakNone(s: string)
    requires NoBreaks(s)
    ensures FirstBreak(s) == |s|
  {
    if s != [] {
      FirstBreakNone(s[1..]);
    }
  }

  lemma {:induction false} FirstBreakAt(a: string, b: string)
    requires NoBreaks(a) && b != [] && IsLineBreak(b[0])
    ensures FirstBreak(a + b) == |a|
  {
    if a != [] {
      assert (a + b)[1..] == a[1..] + b;
      FirstBreakAt(a[1..], b);
    } else {
      assert a + b == b;
    }
  }

  /** `p` is a prefix of `s`. */
  predicate StartsWith(s: string, p: string) {
    |p| <= |s| && s[..|p|] == p
  }

  /** Python's substring test `p in s`. */
  predicate Contains(s: string, p: string)
    decreases |s|
  {
    StartsWith(s, p) || (s != [] && Contains(s[1..], p))
  }

  /** `p` occurs in `s` starting at index `i`. */
  predicate OccursAt(s: string, p: string, i: int) {
    0 <= i && i + |p| <= |s| && s[i..i + |p|] == p
  }

  /** `p in s` holds exactly when `p` occurs at some position of `s`. */
  lemma {:induction false} ContainsAt(s: string, p: string)
    ensures Contains(s, p) <==> exists i :: OccursAt(s, p, i)
    decreases |s|
  {
    if s != [] {
      ContainsAt(s[1..], p);
      if Contains(s[1..], p) {
        var i :| OccursAt(s[1..], p, i);
        assert s[i + 1..i + 1 + |p|] == s[1..][i..i + |p|];
        assert OccursAt(s, p, i + 1);
      }
      if StartsWith(s, p) {
        assert OccursAt(s, p, 0);
      }
      if exists i :: OccursAt(s, p, i) {
        var i :| OccursAt(s, p, i);
        if i > 0 {
          assert s[1..][i - 1..i - 1 + |p|] == s[i..i + |p|];
          assert OccursAt(s[1..], p, i - 1);
        }
      }
    } else if p == [] {
      assert OccursAt(s, p, 0);
    }
  }

  /** A string that lacks the first character of `p` cannot contain `p`. */
  lemma {:induction false} NotContainsWithoutHead(s: string, p: string)
    requires p != [] && p[0] !in s
    ensures !Contains(s, p)
  {
    if s != [] {
      assert s[0] != p[0];
      NotContainsWithoutHead(s[1..], p);
    }
  }
}
