/**
 * `clean_llm_json` of src/utils/json_cleaner.py, the lenient extractor:
 * it never raises, removes fence markers only when the stripped text
 * starts with one, and answers "" when it finds no object.
 */
module JsonCleaner {
  import opened Wrappers
  import opened Text
  import opened BraceSpan
  import JsonUtils

  /**
   * The text the brace search runs on: stripped, and when it then starts
   * with "```", every "```json" and afterwards every "```" replaced by
   * nothing and the rest stripped again. Neither step touches a brace.
   */
  function Preprocess(text: string): (t: string)
    ensures |t| <= |text|
    ensures Braces(t) == Braces(text)
  {
    var s := Strip(text);
    StripKeepsBraces(text);
    if JsonUtils.Fence <= s then
      var once := RemoveAll(s, JsonUtils.JsonFence);
      var twice := RemoveAll(once, JsonUtils.Fence);
      RemoveAllKeepsBraces(s, JsonUtils.JsonFence);
      RemoveAllKeepsBraces(once, JsonUtils.Fence);
      StripKeepsBraces(twice);
      Strip(twice)
    else
      s
  }

  /**
   * `clean_llm_json(text)`, with `None` for Python's `None`. The result is
   * "" exactly when the input is empty or has no '}' after its first '{';
   * otherwise it is the processed text from its first '{' to its last '}'.
   */
  function CleanLlmJson(text: Option<string>): (r: string)
    ensures text == None || text == Some("") ==> r == ""
    ensures r != "" <==> text.Some? && HasBraceMatch(text.value)
    ensures r != "" ==> text.Some? && IsBraceSpan(Preprocess(text.value), r)
  {
    if text.None? || text.value == "" then ""
    else
      SameBracesSameVerdict(Preprocess(text.value), text.value);
      Extract(Preprocess(text.value))
  }

  /**
   * `text[start:end + 1]` for the first '{' and the last '}' when both
   * exist, else "": non-empty exactly when a '}' follows the first '{', and
   * then the brace span.
   */
  function Extract(t: string): (r: string)
    ensures r != "" <==> HasBraceMatch(t)
    ensures r != "" ==> IsBraceSpan(t, r)
  {
    var start, end := Find(t, '{'), RFind(t, '}');
    if start != -1 && end != -1 then
      SliceIsSpan(t);
      Slice(t, start, end + 1)
    else
      FirstLastDecides(t);
      ""
  }

  /**
   * The slice from the first '{' to one past the last '}' is empty when the
   * last '}' comes first, and otherwise is the brace span.
   */
  lemma SliceIsSpan(t: string)
    requires Find(t, '{') >= 0 && RFind(t, '}') >= 0
    ensures var v := Slice(t, Find(t, '{'), RFind(t, '}') + 1);
      && (v == [] <==> RFind(t, '}') < Find(t, '{'))
      && (v != [] <==> HasBraceMatch(t))
      && (v != [] ==> IsBraceSpan(t, v))
  {
    FirstLastDecides(t);
    var p, q := Find(t, '{'), RFind(t, '}');
    assert t[p] != t[q];
    if p < q {
      FirstLastSpan(t);
      assert Slice(t, p, q + 1) == t[p..q + 1];
    }
  }

  /** Text lacking a '{' or lacking a '}' yields "". */
  lemma MissingBraceGivesEmpty(text: string)
    requires '{' !in text || '}' !in text
    ensures CleanLlmJson(Some(text)) == ""
  {
    FirstLastDecides(text);
  }

  /**
   * When the last '}' comes before the first '{', `text[start:end + 1]` is
   * an empty slice, so the result is "".
   */
  lemma ReversedBracesGiveEmpty(text: string)
    requires '{' in text && '}' in text && RFind(text, '}') < Find(text, '{')
    ensures CleanLlmJson(Some(text)) == ""
  {
    FirstLastDecides(text);
  }

  /** A bare object is a fixed point: processing keeps it, and the search takes all of it. */
  lemma BareObjectFixed(v: string)
    requires |v| >= 2 && v[0] == '{' && v[|v| - 1] == '}'
    ensures CleanLlmJson(Some(v)) == v
  {
    StripUnchanged(v);
    assert !(JsonUtils.Fence <= v) by { assert v[0] != JsonUtils.Fence[0]; }
    ObjectPassesThrough(v, v);
  }

  /** Text that processes into a bare object yields that object whole. */
  lemma ObjectPassesThrough(text: string, v: string)
    requires text != "" && Preprocess(text) == v
    requires |v| >= 2 && v[0] == '{' && v[|v| - 1] == '}'
    ensures CleanLlmJson(Some(text)) == v
  {
    assert Find(v, '{') == 0 && RFind(v, '}') == |v| - 1;
    assert Slice(v, 0, |v|) == v;
  }

  /** Cleaning a non-empty result again returns it unchanged. */
  lemma Idempotent(text: string, v: string)
    requires CleanLlmJson(Some(text)) == v && v != ""
    ensures CleanLlmJson(Some(v)) == v
  {
    BareObjectFixed(v);
  }

  /** A "```json" fence around backtick-free text: both markers go, the text is stripped. */
  lemma FencedBody(body: string)
    requires '`' !in body
    ensures Preprocess(JsonUtils.JsonFence + body + JsonUtils.Fence) == Strip(body)
  {
    var text := JsonUtils.JsonFence + body + JsonUtils.Fence;
    StripUnchanged(text);
    assert JsonUtils.Fence <= text;
    assert text == JsonUtils.JsonFence + (body + JsonUtils.Fence);
    NotContainsShortTail(body, JsonUtils.Fence, JsonUtils.JsonFence);
    RemoveAllAbsent(body + JsonUtils.Fence, JsonUtils.JsonFence);
    assert RemoveAll(text, JsonUtils.JsonFence) == body + JsonUtils.Fence;
    RemoveAllSkips(body, JsonUtils.Fence, JsonUtils.Fence);
    assert RemoveAll(JsonUtils.Fence, JsonUtils.Fence) == [];
    assert body + [] == body;
  }

  /** The fenced object regrouped around its newline-framed body. */
  lemma BareFencedRegroup(j: string)
    ensures JsonUtils.JsonFence + "\n" + j + "\n" + JsonUtils.Fence
      == JsonUtils.JsonFence + ("\n" + j + "\n") + JsonUtils.Fence
  {
  }

  /** Processing an object in a ```json fence, each marker on its own line, leaves the object. */
  lemma FencedObject(j: string)
    requires |j| >= 2 && j[0] == '{' && j[|j| - 1] == '}' && '`' !in j
    ensures Preprocess(JsonUtils.JsonFence + "\n" + j + "\n" + JsonUtils.Fence) == j
  {
    BareFencedRegroup(j);
    JsonUtils.FramedHasNoTick(j);
    FencedBody("\n" + j + "\n");
    StripFrame("\n", j, "\n");
  }

  /**
   * Round trip: an object in a ```json fence, each marker on its own line,
   * yields exactly the object.
   */
  lemma RoundTrip(j: string)
    requires |j| >= 2 && j[0] == '{' && j[|j| - 1] == '}' && '`' !in j
    ensures CleanLlmJson(Some(JsonUtils.JsonFence + "\n" + j + "\n" + JsonUtils.Fence)) == j
  {
    FencedObject(j);
    ObjectPassesThrough(JsonUtils.JsonFence + "\n" + j + "\n" + JsonUtils.Fence, j);
  }

  /**
   * Markers are removed only from text that starts with one: a fence
   * after a leading character other than a backtick stays in the text the
   * search runs on.
   */
  lemma InnerFenceKept(pre: string, post: string)
    requires pre != [] && !IsSpace(pre[0]) && pre[0] != '`'
    ensures Contains(Preprocess(pre + JsonUtils.Fence + post), JsonUtils.Fence)
  {
    var s := pre + JsonUtils.Fence + post;
    var n := |pre|;
    assert s[0] == pre[0] && s[n + 2] == '`';
    StripKeepsPrefix(s, n + 2);
    var r := Strip(s);
    assert r[..n + 3] == s[..n + 3];
    assert !(JsonUtils.Fence <= r) by { assert r[0] == pre[0]; }
    assert r[n..n + 3] == s[n..n + 3] == JsonUtils.Fence;
    assert OccursAt(r, JsonUtils.Fence, n);
  }
}
