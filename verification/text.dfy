/**
 * The handful of Python `str` operations the extractors and the signal
 * extractor are built from: `strip`, `lower`, `find`, `rfind`, `replace`
 * with an empty replacement, `startswith` (Dafny's prefix `<=`), the `in`
 * substring test and slicing with non-negative bounds.
 */
module Text {

  /** Python's `str.isspace()`: exactly the characters `str.strip()` removes. */
  predicate IsSpace(c: char) {
    var n := c as int;
    n == 0x20 || 0x09 <= n <= 0x0d || 0x1c <= n <= 0x1f || n == 0x85 || n == 0xa0
    || n == 0x1680 || 0x2000 <= n <= 0x200a || n == 0x2028 || n == 0x2029
    || n == 0x202f || n == 0x205f || n == 0x3000
  }

  predicate AllSpace(s: string) {
    forall i | 0 <= i < |s| :: IsSpace(s[i])
  }

  /** Number of whitespace characters at the front of `s`. */
  function LeadingSpace(s: string): (n: nat)
    ensures n <= |s|
    ensures forall i | 0 <= i < n :: IsSpace(s[i])
    ensures n < |s| ==> !IsSpace(s[n])
  {
    SpaceEnd(s, 0)
  }

  /** The end of the whitespace run of `s` that starts at `i`. */
  function SpaceEnd(s: string, i: nat): (n: nat)
    requires i <= |s|
    ensures i <= n <= |s|
    ensures forall k | i <= k < n :: IsSpace(s[k])
    ensures n < |s| ==> !IsSpace(s[n])
    decreases |s| - i
  {
    if i == |s| || !IsSpace(s[i]) then i else SpaceEnd(s, i + 1)
  }

  /** Number of whitespace characters at the back of `s`. */
  function TrailingSpace(s: string): (n: nat)
    ensures n <= |s|
    ensures forall i | |s| - n <= i < |s| :: IsSpace(s[i])
    ensures n < |s| ==> !IsSpace(s[|s| - 1 - n])
  {
    |s| - SpaceStart(s, |s|)
  }

  /** The start of the whitespace run of `s` that ends at `j`. */
  function SpaceStart(s: string, j: nat): (n: nat)
    requires j <= |s|
    ensures n <= j
    ensures forall k | n <= k < j :: IsSpace(s[k])
    ensures n > 0 ==> !IsSpace(s[n - 1])
  {
    if j == 0 || !IsSpace(s[j - 1]) then j else SpaceStart(s, j - 1)
  }

  /**
   * `str.strip()`: empty exactly when `s` is all whitespace, and otherwise
   * neither end is whitespace. `StripInfix` says what was cut.
   */
  function Strip(s: string): (r: string)
    ensures |r| <= |s|
    ensures r == [] <==> AllSpace(s)
    ensures r != [] ==> !IsSpace(r[0]) && !IsSpace(r[|r| - 1])
  {
    var lo := LeadingSpace(s);
    if lo == |s| then []
    else
      var hi := |s| - TrailingSpace(s);
      assert lo < hi;
      s[lo..hi]
  }

  /** `Strip(s)` is `s` with a whitespace-only prefix and a whitespace-only suffix cut off. */
  lemma StripInfix(s: string)
    ensures var lo, r := LeadingSpace(s), Strip(s);
      && lo + |r| <= |s| && s[lo..lo + |r|] == r
      && AllSpace(s[..lo]) && AllSpace(s[lo + |r|..])
  {
  }

  /** Strip changes nothing when neither end is whitespace. */
  lemma StripUnchanged(s: string)
    requires s != [] && !IsSpace(s[0]) && !IsSpace(s[|s| - 1])
    ensures Strip(s) == s
  {
  }

  /**
   * Strip never cuts into a part whose first and last characters are not
   * whitespace: it only trims the text around it.
   */
  lemma StripAround(pre: string, m: string, post: string)
    requires m != [] && !IsSpace(m[0]) && !IsSpace(m[|m| - 1])
    ensures exists a, b | 0 <= a <= |pre| && 0 <= b <= |post| ::
              Strip(pre + m + post) == pre[a..] + m + post[..b]
  {
    var s := pre + m + post;
    var lo := LeadingSpace(s);
    var hi := |s| - TrailingSpace(s);
    assert s[|pre|] == m[0];
    assert s[|pre| + |m| - 1] == m[|m| - 1];
    assert lo <= |pre| < |pre| + |m| <= hi;
    assert s[lo..hi] == pre[lo..] + m + post[..hi - |pre| - |m|];
  }

  /** Strip keeps everything up to a non-whitespace character when `s` starts with one. */
  lemma StripKeepsPrefix(s: string, k: nat)
    requires k < |s| && !IsSpace(s[0]) && !IsSpace(s[k])
    ensures k < |Strip(s)| && Strip(s)[..k + 1] == s[..k + 1]
  {
    assert LeadingSpace(s) == 0;
    assert TrailingSpace(s) < |s| - k;
  }

  /** Whitespace-only text on both sides of `m` is all that strip removes. */
  lemma StripFrame(pre: string, m: string, post: string)
    requires AllSpace(pre) && AllSpace(post)
    requires m != [] && !IsSpace(m[0]) && !IsSpace(m[|m| - 1])
    ensures Strip(pre + m + post) == m
  {
    var s := pre + m + post;
    assert s[|pre|] == m[0] && s[|pre| + |m| - 1] == m[|m| - 1];
    assert forall i | 0 <= i < |pre| :: s[i] == pre[i];
    assert forall i | |pre| + |m| <= i < |s| :: s[i] == post[i - |pre| - |m|];
    assert LeadingSpace(s) == |pre|;
    assert TrailingSpace(s) == |post|;
    assert s[|pre|..|pre| + |m|] == m;
  }

  /** ASCII case folding, standing in for `str.lower()`. */
  function LowerChar(c: char): (d: char)
    ensures 'A' <= c <= 'Z' ==> d as int == c as int + 32
    ensures !('A' <= c <= 'Z') ==> d == c
  {
    if 'A' <= c <= 'Z' then (c as int + 32) as char else c
  }

  function Lower(s: string): (r: string)
    ensures |r| == |s|
    ensures forall i | 0 <= i < |s| :: r[i] == LowerChar(s[i])
  {
    seq(|s|, i requires 0 <= i < |s| => LowerChar(s[i]))
  }

  /** Lowering twice is lowering once. */
  lemma LowerIdempotent(s: string)
    ensures Lower(Lower(s)) == Lower(s)
  {
  }

  /** No character of `s` is one of `cs`. */
  predicate Avoids(s: string, cs: string) {
    forall i | 0 <= i < |s| :: s[i] !in cs
  }

  /** A part of `s` that lower-cases to `k` puts `k` into `Lower(s)` at the same place. */
  lemma LowerOccurs(s: string, k: string, pos: nat)
    requires pos + |k| <= |s| && Lower(s[pos..pos + |k|]) == k
    ensures OccursAt(Lower(s), k, pos) && Contains(Lower(s), k)
  {
    forall i | 0 <= i < |k| ensures Lower(s)[pos + i] == k[i] {
      assert Lower(s[pos..pos + |k|])[i] == LowerChar(s[pos + i]);
    }
    assert Lower(s)[pos..pos + |k|] == k;
    assert OccursAt(Lower(s), k, pos);
  }

  /** `p` occurs in `s` starting at index `i`. */
  predicate OccursAt(s: string, p: string, i: int) {
    0 <= i && i + |p| <= |s| && s[i..i + |p|] == p
  }

  /** Python's `p in s` for strings. */
  predicate Contains(s: string, p: string) {
    exists i | 0 <= i <= |s| - |p| :: OccursAt(s, p, i)
  }

  /** A needle with a character the haystack lacks does not occur in it. */
  lemma {:induction false} NotContainsMissingChar(s: string, p: string, c: char)
    requires c in p && c !in s
    ensures !Contains(s, p)
  {
    var j :| 0 <= j < |p| && p[j] == c;
    forall i | 0 <= i <= |s| - |p| ensures !OccursAt(s, p, i) {
      assert s[i..i + |p|][j] == s[i + j];
    }
  }

  /** A needle whose first character is missing from `x` and which is longer than `y` does not occur in `x + y`. */
  lemma {:induction false} NotContainsShortTail(x: string, y: string, p: string)
    requires p != [] && p[0] !in x && |y| < |p|
    ensures !Contains(x + y, p)
  {
    var s := x + y;
    forall i | 0 <= i <= |s| - |p| ensures !OccursAt(s, p, i) {
      assert i < |x|;
      assert s[i..i + |p|][0] == x[i];
    }
  }

  /** Python's `s.find(c)`: the first index of `c`, or -1. */
  function Find(s: string, c: char): (r: int)
    ensures -1 <= r < |s|
    ensures r == -1 <==> c !in s
    ensures r >= 0 ==> s[r] == c && forall k | 0 <= k < r :: s[k] != c
  {
    FindFrom(s, c, 0)
  }

  /** The first index of `c` at or after `i`, or -1. */
  function FindFrom(s: string, c: char, i: nat): (r: int)
    requires i <= |s|
    ensures -1 <= r < |s|
    ensures r == -1 <==> forall k | i <= k < |s| :: s[k] != c
    ensures r >= 0 ==> i <= r && s[r] == c && forall k | i <= k < r :: s[k] != c
    decreases |s| - i
  {
    if i == |s| then -1
    else if s[i] == c then i
    else FindFrom(s, c, i + 1)
  }

  /** Python's `s.rfind(c)`: the last index of `c`, or -1. */
  function RFind(s: string, c: char): (r: int)
    ensures -1 <= r < |s|
    ensures r == -1 <==> c !in s
    ensures r >= 0 ==> s[r] == c && forall k | r < k < |s| :: s[k] != c
  {
    FindBefore(s, c, |s|)
  }

  /** The last index of `c` before `j`, or -1. */
  function FindBefore(s: string, c: char, j: nat): (r: int)
    requires j <= |s|
    ensures -1 <= r < j
    ensures r == -1 <==> forall k | 0 <= k < j :: s[k] != c
    ensures r >= 0 ==> s[r] == c && forall k | r < k < j :: s[k] != c
  {
    if j == 0 then -1
    else if s[j - 1] == c then j - 1
    else FindBefore(s, c, j - 1)
  }

  /** Python's `s[i:j]` for non-negative bounds: clamped to `|s|`, empty when `i >= j`. */
  function Slice(s: string, i: nat, j: nat): (r: string)
    ensures |r| == if i < j && i < |s| then (if j < |s| then j else |s|) - i else 0
    ensures forall k | 0 <= k < |r| :: r[k] == s[i + k]
  {
    var hi := if j < |s| then j else |s|;
    if i < hi then s[i..hi] else []
  }

  /**
   * Python's `s.replace(pat, "")` for a non-empty `pat`: one left-to-right
   * scan deleting non-overlapping occurrences.
   */
  function RemoveAll(s: string, pat: string): (r: string)
    requires pat != []
    ensures |r| <= |s|
    ensures forall c | c in r :: c in s
    ensures forall c | c in s && c !in pat :: c in r
    decreases |s|
  {
    if s == [] then []
    else if pat <= s then RemoveAll(s[|pat|..], pat)
    else [s[0]] + RemoveAll(s[1..], pat)
  }

  /** Strip cannot create an occurrence. */
  lemma StripNotContains(s: string, p: string)
    requires !Contains(s, p)
    ensures !Contains(Strip(s), p)
  {
    StripInfix(s);
    var lo := LeadingSpace(s);
    NotContainsInfix(s, p, lo, lo + |Strip(s)|);
  }

  /** Text that cannot start an occurrence passes through `RemoveAll` untouched. */
  lemma {:induction false} RemoveAllSkips(x: string, y: string, pat: string)
    requires pat != [] && pat[0] !in x
    ensures RemoveAll(x + y, pat) == x + RemoveAll(y, pat)
    decreases |x|
  {
    if x != [] {
      var s := x + y;
      assert s[0] == x[0];
      assert !(pat <= s);
      assert s[1..] == x[1..] + y;
      RemoveAllSkips(x[1..], y, pat);
      assert [x[0]] + x[1..] == x;
    } else {
      assert x + y == y;
    }
  }

  /** A pattern absent from `s` is absent from every piece of `s`. */
  lemma NotContainsInfix(s: string, p: string, lo: nat, hi: nat)
    requires !Contains(s, p) && lo <= hi <= |s|
    ensures !Contains(s[lo..hi], p)
  {
    var t := s[lo..hi];
    forall i | 0 <= i <= |t| - |p| ensures !OccursAt(t, p, i) {
      assert !OccursAt(s, p, lo + i);
      var a, b := t[i..i + |p|], s[lo + i..lo + i + |p|];
      assert forall k | 0 <= k < |p| :: a[k] == b[k];
      assert a == b;
    }
  }

  /** Deleting a pattern that does not occur changes nothing. */
  lemma {:induction false} RemoveAllAbsent(s: string, pat: string)
    requires pat != [] && !Contains(s, pat)
    ensures RemoveAll(s, pat) == s
    decreases |s|
  {
    if s != [] {
      assert !OccursAt(s, pat, 0);
      NotContainsInfix(s, pat, 1, |s|);
      assert s[1..|s|] == s[1..];
      RemoveAllAbsent(s[1..], pat);
    }
  }

  /**
   * `r` keeps the counts of `y` outside `marker`, and deleting a piece `x`
   * made of marker characters in front of `y` keeps that so.
   */
  lemma DropCounts(x: string, y: string, r: string, marker: string)
    requires forall c | c in x :: c in marker
    requires multiset(r) <= multiset(y)
    requires forall c | c !in marker :: multiset(r)[c] == multiset(y)[c]
    ensures multiset(r) <= multiset(x + y)
    ensures forall c | c !in marker :: multiset(r)[c] == multiset(x + y)[c]
  {
    assert multiset(x + y) == multiset(x) + multiset(y);
  }

  /** Keeping a character in front keeps the same count relation. */
  lemma KeepCounts(ch: char, y: string, r: string, marker: string)
    requires multiset(r) <= multiset(y)
    requires forall c | c !in marker :: multiset(r)[c] == multiset(y)[c]
    ensures multiset([ch] + r) <= multiset([ch] + y)
    ensures forall c | c !in marker :: multiset([ch] + r)[c] == multiset([ch] + y)[c]
  {
    assert multiset([ch] + r) == multiset([ch]) + multiset(r);
    assert multiset([ch] + y) == multiset([ch]) + multiset(y);
  }

  /**
   * `replace(pat, "")` only deletes: no character occurs more often
   * afterwards, and a character outside `pat` occurs exactly as often.
   */
  lemma {:induction false} RemoveAllCounts(s: string, pat: string)
    requires pat != []
    ensures multiset(RemoveAll(s, pat)) <= multiset(s)
    ensures forall c | c !in pat :: multiset(RemoveAll(s, pat))[c] == multiset(s)[c]
    decreases |s|
  {
    if s != [] {
      if pat <= s {
        var y := s[|pat|..];
        RemoveAllCounts(y, pat);
        assert s == pat + y;
        DropCounts(pat, y, RemoveAll(y, pat), pat);
      } else {
        var y := s[1..];
        RemoveAllCounts(y, pat);
        assert s == [s[0]] + y;
        KeepCounts(s[0], y, RemoveAll(y, pat), pat);
      }
    }
  }
}
