/**
 * What both extractors look for in the cleaned text: a '{' with a '}'
 * somewhere after it, and the span from the first '{' to the last '}'.
 */
module BraceSpan {
  import opened Text

  /** The pattern `\{.*\}` under DOTALL matches `t[p..q + 1]`: any text may sit between the braces. */
  predicate BraceMatch(t: string, p: int, q: int) {
    0 <= p < q < |t| && t[p] == '{' && t[q] == '}'
  }

  predicate HasBraceMatch(t: string) {
    exists p, q | 0 <= p < q < |t| :: BraceMatch(t, p, q)
  }

  /** `v` sits at `p` in `t`, with no '{' before it and no '}' after it. */
  predicate SpanAt(t: string, v: string, p: int) {
    && 0 <= p && p + |v| <= |t| && t[p..p + |v|] == v
    && (forall k | 0 <= k < p :: t[k] != '{')
    && (forall k | p + |v| <= k < |t| :: t[k] != '}')
  }

  /** `v` is the text of `t` from its first '{' to its last '}', both included. */
  predicate IsBraceSpan(t: string, v: string) {
    && |v| >= 2 && v[0] == '{' && v[|v| - 1] == '}'
    && exists p | 0 <= p <= |t| - |v| :: SpanAt(t, v, p)
  }

  /** A text has at most one brace span. */
  lemma {:induction false} BraceSpanUnique(t: string, v: string, w: string)
    requires IsBraceSpan(t, v) && IsBraceSpan(t, w)
    ensures v == w
  {
    var p :| 0 <= p <= |t| - |v| && SpanAt(t, v, p);
    var p' :| 0 <= p' <= |t| - |w| && SpanAt(t, w, p');
    assert t[p..p + |v|][0] == t[p] && t[p'..p' + |w|][0] == t[p'];
    assert p == p';
    var e, e' := p + |v| - 1, p' + |w| - 1;
    assert t[p..p + |v|][|v| - 1] == t[e] && t[p'..p' + |w|][|w| - 1] == t[e'];
    assert e == e';
  }

  /**
   * The first '{' and the last '}' decide everything: a match exists iff
   * the first '{' comes before the last '}', and then no match starts
   * earlier and none from that start ends later.
   */
  lemma FirstLastDecides(t: string)
    ensures HasBraceMatch(t) <==> 0 <= Find(t, '{') < RFind(t, '}')
    ensures forall p, q | BraceMatch(t, p, q) :: Find(t, '{') <= p && q <= RFind(t, '}')
  {
    var f, l := Find(t, '{'), RFind(t, '}');
    if 0 <= f < l {
      assert BraceMatch(t, f, l);
    }
  }

  /** A '{' with no '{' before it up to a '}' with no '}' after it is the brace span. */
  lemma SpanBetween(t: string, p: nat, q: nat)
    requires p < q < |t| && t[p] == '{' && t[q] == '}'
    requires forall k | 0 <= k < p :: t[k] != '{'
    requires forall k | q < k < |t| :: t[k] != '}'
    ensures IsBraceSpan(t, t[p..q + 1])
  {
    assert SpanAt(t, t[p..q + 1], p);
  }

  /** The text from the first '{' to the last '}' is the brace span. */
  lemma FirstLastSpan(t: string)
    requires 0 <= Find(t, '{') < RFind(t, '}')
    ensures IsBraceSpan(t, t[Find(t, '{')..RFind(t, '}') + 1])
  {
    SpanBetween(t, Find(t, '{'), RFind(t, '}'));
  }

  /** The braces of `s`, in order. */
  function Braces(s: string): (r: string)
    ensures forall c | c in r :: c == '{' || c == '}'
    ensures '{' in r <==> '{' in s
    ensures '}' in r <==> '}' in s
  {
    if s == [] then []
    else (if s[0] == '{' || s[0] == '}' then [s[0]] else []) + Braces(s[1..])
  }

  lemma {:induction false} BracesConcat(x: string, y: string)
    ensures Braces(x + y) == Braces(x) + Braces(y)
    decreases |x|
  {
    if x == [] {
      assert x + y == y;
    } else {
      assert (x + y)[1..] == x[1..] + y;
      BracesConcat(x[1..], y);
    }
  }

  lemma {:induction false} BracesNone(s: string)
    requires '{' !in s && '}' !in s
    ensures Braces(s) == []
  {
    if s != [] {
      BracesNone(s[1..]);
    }
  }

  /** A match in `[c] + x` either starts at `c` or lies within `x`. */
  lemma ConsMatch(c: char, x: string)
    ensures HasBraceMatch([c] + x) <==> (c == '{' && '}' in x) || HasBraceMatch(x)
  {
    var s := [c] + x;
    if HasBraceMatch(s) {
      var p, q :| 0 <= p < q < |s| && BraceMatch(s, p, q);
      if p == 0 {
        assert x[q - 1] == '}';
      } else {
        assert BraceMatch(x, p - 1, q - 1);
      }
    }
    if c == '{' && '}' in x {
      var q :| 0 <= q < |x| && x[q] == '}';
      assert BraceMatch(s, 0, q + 1);
    }
    if HasBraceMatch(x) {
      var p, q :| 0 <= p < q < |x| && BraceMatch(x, p, q);
      assert BraceMatch(s, p + 1, q + 1);
    }
  }

  /** Whether a match exists depends on the order of the braces alone. */
  lemma {:induction false} MatchIffBraces(s: string)
    ensures HasBraceMatch(s) <==> HasBraceMatch(Braces(s))
    decreases |s|
  {
    if s != [] {
      assert s == [s[0]] + s[1..];
      ConsMatch(s[0], s[1..]);
      MatchIffBraces(s[1..]);
      if s[0] == '{' || s[0] == '}' {
        assert Braces(s) == [s[0]] + Braces(s[1..]);
        ConsMatch(s[0], Braces(s[1..]));
      } else {
        assert Braces(s) == Braces(s[1..]);
      }
    }
  }

  /** Two texts with the same braces in the same order agree on whether a match exists. */
  lemma SameBracesSameVerdict(s: string, t: string)
    requires Braces(s) == Braces(t)
    ensures HasBraceMatch(s) <==> HasBraceMatch(t)
  {
    MatchIffBraces(s);
    MatchIffBraces(t);
  }

  lemma SpaceHasNoBraces(s: string)
    requires AllSpace(s)
    ensures Braces(s) == []
  {
    assert !IsSpace('{') && !IsSpace('}');
    BracesNone(s);
  }

  /** Strip only removes whitespace, never a brace. */
  lemma StripKeepsBraces(s: string)
    ensures Braces(Strip(s)) == Braces(s)
  {
    var r := Strip(s);
    StripInfix(s);
    var lo := LeadingSpace(s);
    var pre, post := s[..lo], s[lo + |r|..];
    assert s == pre + r + post;
    SpaceHasNoBraces(pre);
    SpaceHasNoBraces(post);
    BracesConcat(pre + r, post);
    BracesConcat(pre, r);
  }


  /** Deleting a brace-free pattern keeps every brace in its place. */
  lemma {:induction false} RemoveAllKeepsBraces(s: string, pat: string)
    requires pat != [] && '{' !in pat && '}' !in pat
    ensures Braces(RemoveAll(s, pat)) == Braces(s)
    decreases |s|
  {
    if s != [] {
      if pat <= s {
        assert s == pat + s[|pat|..];
        BracesNone(pat);
        BracesConcat(pat, s[|pat|..]);
        RemoveAllKeepsBraces(s[|pat|..], pat);
      } else {
        RemoveAllKeepsBraces(s[1..], pat);
      }
    }
  }
}
