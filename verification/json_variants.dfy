/**
 * The two `clean_llm_json` variants side by side: they accept and reject
 * the same outputs and agree on output without backticks, but a "```"
 * inside the object is deleted by one and kept by the other, and the two
 * fence removals differ on runs of backticks.
 */
module JsonVariants {
  import opened Wrappers
  import opened Text
  import opened BraceSpan
  import JsonUtils
  import JsonCleaner

  /** The raising variant succeeds exactly when the lenient one returns something. */
  lemma SameVerdict(raw: Option<string>)
    ensures JsonUtils.CleanLlmJson(raw).Success? <==> JsonCleaner.CleanLlmJson(raw) != ""
  {
  }

  /** Without a backtick, the raising variant's cleaning is a plain strip. */
  lemma CleanedWithoutBackticks(raw: string)
    requires '`' !in raw
    ensures JsonUtils.Cleaned(raw) == Strip(raw)
  {
    NotContainsMissingChar(raw, JsonUtils.Fence, '`');
    JsonUtils.RemoveFencesAbsent(raw);
  }

  /** Without a backtick, the lenient variant's processing is a plain strip. */
  lemma PreprocessWithoutBackticks(raw: string)
    requires '`' !in raw
    ensures JsonCleaner.Preprocess(raw) == Strip(raw)
  {
    var s := Strip(raw);
    StripInfix(raw);
    var lo := LeadingSpace(raw);
    assert forall i | 0 <= i < |s| :: s[i] == raw[lo + i];
    assert !(JsonUtils.Fence <= s) by {
      if |s| > 0 { assert s[0] == raw[lo]; }
    }
  }

  /** On output without a backtick both variants search the stripped text, so they agree. */
  lemma AgreeWithoutBackticks(raw: string)
    requires '`' !in raw
    ensures JsonUtils.CleanLlmJson(Some(raw)).Success? ==>
      JsonUtils.CleanLlmJson(Some(raw)).value == JsonCleaner.CleanLlmJson(Some(raw))
  {
    var u, c := JsonUtils.CleanLlmJson(Some(raw)), JsonCleaner.CleanLlmJson(Some(raw));
    if u.Success? {
      CleanedWithoutBackticks(raw);
      PreprocessWithoutBackticks(raw);
      BraceSpanUnique(Strip(raw), u.value, c);
    }
  }

  /** The single scan deletes a "```" that is not followed by "json", and nothing else of backtick-free text. */
  lemma RemovesInnerFence(pre: string, post: string)
    requires '`' !in pre && '`' !in post && post != [] && post[0] != 'j'
    ensures JsonUtils.RemoveFences(pre + JsonUtils.Fence + post) == pre + post
  {
    RemovesLoneFence(post);
    var closing := JsonUtils.Fence + post;
    calc {
      JsonUtils.RemoveFences(pre + JsonUtils.Fence + post);
      { assert pre + JsonUtils.Fence + post == pre + closing; }
      JsonUtils.RemoveFences(pre + closing);
      { JsonUtils.RemoveFencesSkips(pre, closing); }
      pre + JsonUtils.RemoveFences(closing);
      pre + post;
    }
  }

  /** A "```" not followed by 'j', before backtick-free text, is deleted and the text kept. */
  lemma RemovesLoneFence(post: string)
    requires '`' !in post && post != [] && post[0] != 'j'
    ensures JsonUtils.RemoveFences(JsonUtils.Fence + post) == post
  {
    var closing := JsonUtils.Fence + post;
    assert JsonUtils.Fence <= closing && closing[|JsonUtils.Fence|..] == post;
    assert !(JsonUtils.JsonFence <= closing) by { assert closing[3] == post[0]; }
    NotContainsMissingChar(post, JsonUtils.Fence, '`');
    JsonUtils.RemoveFencesAbsent(post);
  }

  /**
   * A "```" inside the object: the raising variant deletes it, the lenient
   * one (whose text does not start with a fence) keeps the object whole.
   */
  lemma InnerFenceDiverges(pre: string, post: string)
    requires |pre| >= 1 && pre[0] == '{' && '`' !in pre
    requires |post| >= 1 && post[0] != 'j' && post[|post| - 1] == '}' && '`' !in post
    ensures JsonUtils.CleanLlmJson(Some(pre + JsonUtils.Fence + post)) == Success(pre + post)
    ensures JsonCleaner.CleanLlmJson(Some(pre + JsonUtils.Fence + post)) == pre + JsonUtils.Fence + post
  {
    var raw := pre + JsonUtils.Fence + post;
    RemovesInnerFence(pre, post);
    assert JsonUtils.RemoveFences(raw) == [] + (pre + post) + [];
    JsonUtils.ExtractsCore(raw, [], pre + post, []);
    assert raw[0] == '{' && raw[|raw| - 1] == '}';
    JsonCleaner.BareObjectFixed(raw);
  }

  /**
   * `{"a": "```"}`: the raising variant returns `{"a": ""}`, the lenient
   * one returns the input.
   */
  lemma InnerFenceExample(raw: string, kept: string)
    requires raw == "{\"a\": \"```\"}" && kept == "{\"a\": \"\"}"
    ensures JsonUtils.CleanLlmJson(Some(raw)) == Success(kept)
    ensures JsonCleaner.CleanLlmJson(Some(raw)) == raw
  {
    var pre, post := kept[..7], kept[7..];
    assert pre == "{\"a\": \"" && post == "\"}";
    assert raw == pre + JsonUtils.Fence + post;
    assert kept == pre + post;
    InnerFenceDiverges(pre, post);
  }

  /** The single scan on "````json" takes "```" at the start and keeps "`json". */
  lemma ScanTakesShortFence(s: string)
    requires s == "````json"
    ensures JsonUtils.RemoveFences(s) == "`json"
  {
    assert JsonUtils.Fence <= s;
    assert !(JsonUtils.JsonFence <= s) by { assert s[3] != JsonUtils.JsonFence[3]; }
    var rest := s[3..];
    assert !(JsonUtils.Fence <= rest) && !(JsonUtils.JsonFence <= rest) by { assert rest[1] == 'j'; }
    assert rest[1..] == "json" + [];
    JsonUtils.RemoveFencesSkips("json", []);
  }

  /** The two replacements on "````json" take the "```json" at index 1 and keep one backtick. */
  lemma ReplacesTakeLongFence(s: string)
    requires s == "````json"
    ensures RemoveAll(RemoveAll(s, JsonUtils.JsonFence), JsonUtils.Fence) == "`"
  {
    assert !(JsonUtils.JsonFence <= s) by { assert s[3] != JsonUtils.JsonFence[3]; }
    assert s[1..] == JsonUtils.JsonFence;
    assert RemoveAll(s, JsonUtils.JsonFence) == "`";
  }

  /**
   * Four backticks and "json": the single scan keeps "`json", the two
   * replacements keep one backtick.
   */
  lemma FenceRemovalDiverges()
    ensures JsonUtils.RemoveFences("````json") == "`json"
    ensures RemoveAll(RemoveAll("````json", JsonUtils.JsonFence), JsonUtils.Fence) == "`"
  {
    ScanTakesShortFence("````json");
    ReplacesTakeLongFence("````json");
  }
}
