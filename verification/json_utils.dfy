/**
 * `clean_llm_json` of src/utils/json_utils.py, the extractor the two
 * generative agents call: reject empty output, delete every markdown fence
 * marker, strip whitespace, and return the span from the first '{' to the
 * last '}', or fail.
 */
module JsonUtils {
  import opened Wrappers
  import opened Text
  import opened BraceSpan

  /** The two `ValueError`s the function raises. */
  datatype ExtractError = EmptyOutput | NoJsonObject {
    function Message(): string {
      match this
      case EmptyOutput => "Empty LLM output"
      case NoJsonObject => "No valid JSON object found in LLM output"
    }
  }

  const JsonFence: string := "```json"
  const Fence: string := "```"

  /**
   * `re.sub(r"```json|```", "", s)`: one left-to-right scan that, at each
   * position, deletes the first alternative that matches there ("```json"
   * before "```") and otherwise keeps the character.
   */
  function RemoveFences(s: string): (r: string)
    ensures |r| <= |s|
    ensures forall c | c in r :: c in s
    ensures forall c | c in s && c !in JsonFence :: c in r
    decreases |s|
  {
    if s == [] then []
    else if JsonFence <= s then RemoveFences(s[|JsonFence|..])
    else if Fence <= s then RemoveFences(s[|Fence|..])
    else [s[0]] + RemoveFences(s[1..])
  }

  /** The text the brace search runs on: fences deleted, then stripped. */
  function Cleaned(raw: string): string {
    Strip(RemoveFences(raw))
  }

  /**
   * `re.search(r"\{.*\}", t, re.DOTALL)` as start and end index of the
   * match: the leftmost match, and from that start the longest one.
   */
  function SearchBraces(t: string): (m: Option<(nat, nat)>)
    ensures m.None? <==> !HasBraceMatch(t)
    ensures m.Some? ==> BraceMatch(t, m.value.0, m.value.1)
    ensures m.Some? ==> forall p, q | BraceMatch(t, p, q) :: m.value.0 <= p
    ensures m.Some? ==> forall q | BraceMatch(t, m.value.0, q) :: q <= m.value.1
  {
    FirstLastDecides(t);
    var p, q := Find(t, '{'), RFind(t, '}');
    if 0 <= p < q then Some((p, q)) else None
  }

  /**
   * `clean_llm_json(raw_output)`. `None` stands for Python's `None`; a
   * raised `ValueError` is a `Failure`. It fails on empty output, and
   * otherwise fails exactly when the raw output has no '}' after its first
   * '{' (fences and whitespace never contain braces). On success the result
   * is the cleaned text from its first '{' to its last '}'.
   */
  function CleanLlmJson(raw: Option<string>): (r: Result<string, ExtractError>)
    ensures r == Failure(EmptyOutput) <==> raw == None || raw == Some("")
    ensures r == Failure(NoJsonObject) <==> raw.Some? && raw.value != "" && !HasBraceMatch(raw.value)
    ensures r.Success? ==> raw.Some? && IsBraceSpan(Cleaned(raw.value), r.value)
  {
    if raw.None? || raw.value == "" then Failure(EmptyOutput)
    else
      CleaningDecides(raw.value);
      Extract(Cleaned(raw.value))
  }

  /** The search and the slice on the cleaned text: the brace span, or `NoJsonObject`. */
  function Extract(t: string): (r: Result<string, ExtractError>)
    ensures r.Failure? ==> r.error == NoJsonObject
    ensures r.Failure? <==> !HasBraceMatch(t)
    ensures r.Success? ==> IsBraceSpan(t, r.value)
  {
    var m := SearchBraces(t);
    if m.None? then Failure(NoJsonObject)
    else
      SearchGivesSpan(t);
      Success(t[m.value.0..m.value.1 + 1])
  }

  /** Each rejection carries the message of the `ValueError` raised in its case. */
  lemma FailureMessages(raw: Option<string>)
    ensures raw == None || raw == Some("") ==> CleanLlmJson(raw).error.Message() == "Empty LLM output"
    ensures raw.Some? && raw.value != "" && !HasBraceMatch(raw.value) ==>
      CleanLlmJson(raw).error.Message() == "No valid JSON object found in LLM output"
  {
  }

  /** Whether the cleaned text holds a match is decided by the raw output alone. */
  lemma CleaningDecides(raw: string)
    ensures HasBraceMatch(Cleaned(raw)) <==> HasBraceMatch(raw)
  {
    CleaningKeepsBraces(raw);
    SameBracesSameVerdict(Cleaned(raw), raw);
  }

  /** The text the search matches is the brace span. */
  lemma SearchGivesSpan(t: string)
    requires SearchBraces(t).Some?
    ensures SearchBraces(t).value.1 < |t|
    ensures IsBraceSpan(t, t[SearchBraces(t).value.0..SearchBraces(t).value.1 + 1])
  {
    FirstLastSpan(t);
  }

  /** Fence removal deletes only backticks and the letters of "json", never a brace. */
  lemma {:induction false} RemoveFencesKeepsBraces(s: string)
    ensures Braces(RemoveFences(s)) == Braces(s)
    decreases |s|
  {
    if s != [] {
      if JsonFence <= s {
        assert s == JsonFence + s[|JsonFence|..];
        BracesNone(JsonFence);
        BracesConcat(JsonFence, s[|JsonFence|..]);
        RemoveFencesKeepsBraces(s[|JsonFence|..]);
      } else if Fence <= s {
        assert s == Fence + s[|Fence|..];
        BracesNone(Fence);
        BracesConcat(Fence, s[|Fence|..]);
        RemoveFencesKeepsBraces(s[|Fence|..]);
      } else {
        RemoveFencesKeepsBraces(s[1..]);
      }
    }
  }

  /**
   * Fence removal only deletes: no character occurs more often afterwards,
   * and a character that is not part of a marker occurs exactly as often.
   */
  lemma {:induction false} RemoveFencesCounts(s: string)
    ensures multiset(RemoveFences(s)) <= multiset(s)
    ensures forall c | c !in JsonFence :: multiset(RemoveFences(s))[c] == multiset(s)[c]
    decreases |s|
  {
    if s != [] {
      if JsonFence <= s {
        var y := s[|JsonFence|..];
        RemoveFencesCounts(y);
        assert s == JsonFence + y;
        assert RemoveFences(s) == RemoveFences(y);
        DropCounts(JsonFence, y, RemoveFences(y), JsonFence);
      } else if Fence <= s {
        var y := s[|Fence|..];
        RemoveFencesCounts(y);
        assert s == Fence + y;
        assert RemoveFences(s) == RemoveFences(y);
        DropCounts(Fence, y, RemoveFences(y), JsonFence);
      } else {
        var y := s[1..];
        RemoveFencesCounts(y);
        assert s == [s[0]] + y;
        assert RemoveFences(s) == [s[0]] + RemoveFences(y);
        KeepCounts(s[0], y, RemoveFences(y), JsonFence);
      }
    }
  }

  /** Cleaning keeps every brace of the raw output, in order. */
  lemma CleaningKeepsBraces(raw: string)
    ensures Braces(Cleaned(raw)) == Braces(raw)
  {
    RemoveFencesKeepsBraces(raw);
    StripKeepsBraces(RemoveFences(raw));
  }

  /** Text without backticks passes through fence removal untouched. */
  lemma {:induction false} RemoveFencesSkips(x: string, y: string)
    requires '`' !in x
    ensures RemoveFences(x + y) == x + RemoveFences(y)
    decreases |x|
  {
    if x == [] {
      assert x + y == y;
    } else {
      var s := x + y;
      assert s[0] == x[0] && s[1..] == x[1..] + y;
      RemoveFencesSkips(x[1..], y);
      assert [x[0]] + x[1..] == x;
    }
  }

  /** Text that does not start with two backticks yields text that does not either. */
  lemma NoDoubleTickAfter(t: string)
    requires !("``" <= t)
    ensures !("``" <= RemoveFences(t))
  {
    if t != [] {
      assert !(Fence <= t) && !(JsonFence <= t);
      if t[0] == '`' && |t| > 1 {
        assert t[1] != '`';
        var u := t[1..];
        assert !(Fence <= u) && !(JsonFence <= u);
        assert RemoveFences(t) == [t[0]] + ([u[0]] + RemoveFences(u[1..]));
      }
    }
  }

  /** A character put before fence-free text makes no fence unless a backtick meets "``". */
  lemma ConsNoFence(c: char, rest: string)
    requires !Contains(rest, Fence) && (c == '`' ==> !("``" <= rest))
    ensures !Contains([c] + rest, Fence)
  {
    var r := [c] + rest;
    forall i | 0 <= i <= |r| - |Fence| ensures !OccursAt(r, Fence, i) {
      if i == 0 {
        assert r[0] == c;
        assert c == '`' ==> r[1..3] == rest[..2];
      } else {
        assert !OccursAt(rest, Fence, i - 1);
        assert r[i..i + |Fence|] == rest[i - 1..i - 1 + |Fence|];
      }
    }
  }

  /** Every fence marker is gone: no "```" survives, not even one formed by the deletions. */
  lemma {:induction false} FencesGone(s: string)
    ensures !Contains(RemoveFences(s), Fence)
    decreases |s|
  {
    if s == [] {
    } else if JsonFence <= s {
      FencesGone(s[|JsonFence|..]);
    } else if Fence <= s {
      FencesGone(s[|Fence|..]);
    } else {
      FencesGone(s[1..]);
      if s[0] == '`' {
        assert !("``" <= s[1..]) by {
          if |s| >= 3 { assert s[..3] == [s[0]] + s[1..][..2]; }
        }
        NoDoubleTickAfter(s[1..]);
      }
      ConsNoFence(s[0], RemoveFences(s[1..]));
    }
  }

  /** Text with no "```" in it is left as it is. */
  lemma {:induction false} RemoveFencesAbsent(s: string)
    requires !Contains(s, Fence)
    ensures RemoveFences(s) == s
    decreases |s|
  {
    if s != [] {
      assert !OccursAt(s, Fence, 0);
      assert !(JsonFence <= s) by {
        if |s| >= |JsonFence| { assert s[..3] == s[..|JsonFence|][..3]; }
      }
      NotContainsInfix(s, Fence, 1, |s|);
      assert s[1..|s|] == s[1..];
      RemoveFencesAbsent(s[1..]);
    }
  }

  /** A brace-free frame around an object: the search finds exactly the object. */
  lemma SearchFindsCore(pre: string, j: string, post: string)
    requires '{' !in pre && '}' !in pre && '{' !in post && '}' !in post
    requires |j| >= 2 && j[0] == '{' && j[|j| - 1] == '}'
    ensures SearchBraces(pre + j + post) == Some((|pre|, |pre| + |j| - 1))
  {
    var t := pre + j + post;
    assert t[|pre|] == '{' && t[|pre| + |j| - 1] == '}';
    assert BraceMatch(t, |pre|, |pre| + |j| - 1);
  }

  /** Strip around an object in brace-free text leaves the object in brace-free text. */
  lemma StripAroundCore(pre: string, j: string, post: string)
    requires '{' !in pre && '}' !in pre && '{' !in post && '}' !in post
    requires |j| >= 2 && j[0] == '{' && j[|j| - 1] == '}'
    ensures exists pre', post' | '{' !in pre' && '}' !in pre' && '{' !in post' && '}' !in post' ::
      Strip(pre + j + post) == pre' + j + post'
  {
    StripAround(pre, j, post);
    var a, b :| 0 <= a <= |pre| && 0 <= b <= |post| && Strip(pre + j + post) == pre[a..] + j + post[..b];
    var pre', post' := pre[a..], post[..b];
    assert forall c | c in pre' :: c in pre;
    assert forall c | c in post' :: c in post;
    assert Strip(pre + j + post) == pre' + j + post';
  }

  /** The extraction of an object in brace-free text is the object. */
  lemma ExtractsObject(pre: string, j: string, post: string)
    requires '{' !in pre && '}' !in pre && '{' !in post && '}' !in post
    requires |j| >= 2 && j[0] == '{' && j[|j| - 1] == '}'
    ensures Extract(pre + j + post) == Success(j)
  {
    var t := pre + j + post;
    SearchFindsCore(pre, j, post);
    assert t[|pre|..|pre| + |j|] == j;
  }

  /**
   * When fence removal leaves an object between brace-free text, the
   * result is exactly that object.
   */
  lemma ExtractsCore(raw: string, pre: string, j: string, post: string)
    requires raw != "" && RemoveFences(raw) == pre + j + post
    requires '{' !in pre && '}' !in pre && '{' !in post && '}' !in post
    requires |j| >= 2 && j[0] == '{' && j[|j| - 1] == '}'
    ensures CleanLlmJson(Some(raw)) == Success(j)
  {
    StripAroundCore(pre, j, post);
    var pre', post' :| '{' !in pre' && '}' !in pre' && '{' !in post' && '}' !in post'
      && Strip(pre + j + post) == pre' + j + post';
    ExtractsObject(pre', j, post');
  }

  /** An opening "```json" goes, the backtick-free text after it stays. */
  lemma RemoveOpeningFence(body: string, rest: string)
    requires '`' !in body
    ensures RemoveFences(JsonFence + body + rest) == body + RemoveFences(rest)
  {
    var s := JsonFence + body + rest;
    assert JsonFence <= s && s[|JsonFence|..] == body + rest;
    RemoveFencesSkips(body, rest);
  }

  /** The newline-framed object holds no backtick. */
  lemma FramedHasNoTick(j: string)
    requires '`' !in j
    ensures '`' !in "\n" + j + "\n"
  {
    assert forall c | c in "\n" + j + "\n" :: c == '\n' || c in j;
  }

  /** Prose, a ```json-fenced object and more prose, regrouped around the object. */
  lemma ProseFencedRegroup(prose1: string, j: string, prose2: string, tail: string)
    ensures prose1 + JsonFence + "\n" + j + "\n" + Fence + prose2
      == prose1 + (JsonFence + ("\n" + j + "\n") + (Fence + prose2))
    ensures prose1 + (("\n" + j + "\n") + tail) == (prose1 + "\n") + j + ("\n" + tail)
  {
  }

  /** Fence removal on a fenced object: the prose stays, the markers go. */
  lemma RemoveFencesAroundObject(prose1: string, j: string, prose2: string)
    requires '`' !in prose1 && '`' !in j
    ensures RemoveFences(prose1 + JsonFence + "\n" + j + "\n" + Fence + prose2)
      == (prose1 + "\n") + j + ("\n" + RemoveFences(Fence + prose2))
  {
    var body := "\n" + j + "\n";
    var closing := Fence + prose2;
    ProseFencedRegroup(prose1, j, prose2, RemoveFences(closing));
    RemoveFencesSkips(prose1, JsonFence + body + closing);
    FramedHasNoTick(j);
    RemoveOpeningFence(body, closing);
  }

  /**
   * Round trip: prose, a ```json fence, an object, a closing fence and more
   * prose yield exactly the object.
   */
  lemma RoundTrip(prose1: string, j: string, prose2: string)
    requires '{' !in prose1 && '}' !in prose1 && '`' !in prose1
    requires '{' !in prose2 && '}' !in prose2 && '`' !in prose2
    requires |j| >= 2 && j[0] == '{' && j[|j| - 1] == '}' && '`' !in j
    ensures CleanLlmJson(Some(prose1 + JsonFence + "\n" + j + "\n" + Fence + prose2)) == Success(j)
  {
    var raw := prose1 + JsonFence + "\n" + j + "\n" + Fence + prose2;
    RemoveFencesAroundObject(prose1, j, prose2);
    var tail := RemoveFences(Fence + prose2);
    assert forall c | c in tail :: c in Fence + prose2;
    ExtractsCore(raw, prose1 + "\n", j, "\n" + tail);
  }

  /** The cleaned text holds no fence marker. */
  lemma CleanedHasNoFence(raw: string)
    ensures !Contains(Cleaned(raw), Fence)
  {
    FencesGone(raw);
    StripNotContains(RemoveFences(raw), Fence);
  }

  /** A brace span of fence-free text is fence-free. */
  lemma SpanHasNoFence(t: string, v: string)
    requires IsBraceSpan(t, v) && !Contains(t, Fence)
    ensures !Contains(v, Fence)
  {
    var p :| 0 <= p <= |t| - |v| && SpanAt(t, v, p);
    NotContainsInfix(t, Fence, p, p + |v|);
  }

  /** Every successful result holds no fence marker. */
  lemma ResultHasNoFence(raw: string)
    requires CleanLlmJson(Some(raw)).Success?
    ensures !Contains(CleanLlmJson(Some(raw)).value, Fence)
  {
    CleanedHasNoFence(raw);
    SpanHasNoFence(Cleaned(raw), CleanLlmJson(Some(raw)).value);
  }

  /** A fence-free object is its own extraction. */
  lemma FencelessObjectFixed(v: string)
    requires |v| >= 2 && v[0] == '{' && v[|v| - 1] == '}' && !Contains(v, Fence)
    ensures CleanLlmJson(Some(v)) == Success(v)
  {
    RemoveFencesAbsent(v);
    assert v == [] + v + [];
    ExtractsCore(v, [], v, []);
  }

  /** A successful result, cleaned again, comes back unchanged. */
  lemma Idempotent(raw: string, v: string)
    requires CleanLlmJson(Some(raw)) == Success(v)
    ensures CleanLlmJson(Some(v)) == Success(v)
  {
    ResultHasNoFence(raw);
    FencelessObjectFixed(v);
  }

  /** Output with no '}' after its first '{' (none at all, or only before it) is rejected. */
  lemma RejectedWithoutPair(raw: string)
    requires raw != "" && !(0 <= Find(raw, '{') < RFind(raw, '}'))
    ensures CleanLlmJson(Some(raw)) == Failure(NoJsonObject)
  {
    FirstLastDecides(raw);
  }
}
