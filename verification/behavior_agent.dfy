/**
 * `BehaviorAgent` of src/agents/behavior_agent.py: deterministic signals
 * from a purchase history, comparing the baseline month ("month_1") with
 * the recent one ("month_3").
 */
module BehaviorAgent {
  import opened Text

  datatype PurchaseRecord = PurchaseRecord(item: string, category: string)

  /** Period label ("month_1", "month_2", ...) to the items bought in it. */
  type PurchaseHistory = map<string, seq<PurchaseRecord>>

  const PremiumKeywords: seq<string> :=
    ["organic", "premium", "artisan", "wagyu", "imported", "single origin", "fresh", "luxury"]

  const ValueKeywords: seq<string> :=
    ["value", "basic", "store brand", "instant", "budget", "frozen", "economy"]

  /** Separator of the two labels in a quality shift: " → ". */
  const Arrow: string := " \U{2192} "

  datatype Quality = Premium | Value | Neutral {
    function Label(): string {
      match this
      case Premium => "Premium"
      case Value => "Value"
      case Neutral => "Neutral"
    }
  }

  datatype Velocity = Increasing | Decreasing | Stable {
    function Label(): string {
      match this
      case Increasing => "Increasing"
      case Decreasing => "Decreasing"
      case Stable => "Stable"
    }
  }

  /** The dictionary `analyze` returns; the category lists are sets, as Python leaves their order open. */
  datatype BehaviorSignals = BehaviorSignals(
    disappearedCategories: set<string>,
    emergedCategories: set<string>,
    velocityTrend: Velocity,
    qualityShift: string,
    baselineItemCount: nat,
    recentItemCount: nat)

  /** `purchase_history.get(key, [])`: a missing period is an empty basket. */
  function Period(history: PurchaseHistory, key: string): seq<PurchaseRecord> {
    if key in history then history[key] else []
  }

  /** `{p["category"] for p in basket}`. */
  function Categories(basket: seq<PurchaseRecord>): set<string> {
    set p | p in basket :: p.category
  }

  /** Some item of `basket` is in category `c`. */
  predicate Bought(basket: seq<PurchaseRecord>, c: string) {
    exists p | p in basket :: p.category == c
  }

  /** `any(k in name for k in keywords)` with `name = item.lower()`. */
  predicate Mentions(p: PurchaseRecord, keywords: seq<string>) {
    exists k | k in keywords :: Contains(Lower(p.item), k)
  }

  /** How many items of `basket` mention a keyword: each item counts at most once. */
  function Hits(basket: seq<PurchaseRecord>, keywords: seq<string>): (n: nat)
    ensures n <= |basket|
  {
    if basket == [] then 0
    else
      var last := basket[|basket| - 1];
      Hits(basket[..|basket| - 1], keywords) + (if Mentions(last, keywords) then 1 else 0)
  }

  /** The three-way comparison of the hit counts; a tie, zero included, is Neutral. */
  function Classify(premiumHits: nat, valueHits: nat): (q: Quality)
    ensures q == Premium <==> premiumHits > valueHits
    ensures q == Value <==> valueHits > premiumHits
    ensures q == Neutral <==> premiumHits == valueHits
  {
    if premiumHits > valueHits then Premium
    else if valueHits > premiumHits then Value
    else Neutral
  }

  /** The classification of a basket, as `_classify_quality` computes it. */
  function QualityOf(basket: seq<PurchaseRecord>): Quality {
    Classify(Hits(basket, PremiumKeywords), Hits(basket, ValueKeywords))
  }

  /** `_classify_quality`: one pass over the items, counting premium and value hits. */
  method ClassifyQuality(items: seq<PurchaseRecord>) returns (classification: string)
    ensures classification == QualityOf(items).Label()
  {
    var premiumHits, valueHits := 0, 0;
    for i := 0 to |items|
      invariant premiumHits == Hits(items[..i], PremiumKeywords)
      invariant valueHits == Hits(items[..i], ValueKeywords)
    {
      var name := Lower(items[i].item);
      if exists k | k in PremiumKeywords :: Contains(name, k) {
        premiumHits := premiumHits + 1;
      }
      if exists k | k in ValueKeywords :: Contains(name, k) {
        valueHits := valueHits + 1;
      }
      assert items[..i + 1][..i] == items[..i];
    }
    assert items[..|items|] == items;
    if premiumHits > valueHits {
      return "Premium";
    }
    if valueHits > premiumHits {
      return "Value";
    }
    return "Neutral";
  }

  /** Velocity: a strict three-way comparison of basket sizes. */
  function Trend(baselineCount: nat, recentCount: nat): (v: Velocity)
    ensures v == Decreasing <==> recentCount < baselineCount
    ensures v == Increasing <==> recentCount > baselineCount
    ensures v == Stable <==> recentCount == baselineCount
  {
    if recentCount < baselineCount then Decreasing
    else if recentCount > baselineCount then Increasing
    else Stable
  }

  /** The quality shift: "Stable" when nothing changed, otherwise "<baseline> → <recent>". */
  function Shift(baseline: Quality, recent: Quality): (s: string)
    ensures s == "Stable" <==> baseline == recent
  {
    if baseline != recent then baseline.Label() + Arrow + recent.Label() else "Stable"
  }

  /** "A → B" names its two classifications unambiguously. */
  lemma LabelPairInjective(a: Quality, b: Quality, c: Quality, d: Quality)
    ensures a.Label() + Arrow + b.Label() == c.Label() + Arrow + d.Label() <==> a == c && b == d
  {
    var s, t := a.Label() + Arrow + b.Label(), c.Label() + Arrow + d.Label();
    if s == t {
      assert s[0] == a.Label()[0] && t[0] == c.Label()[0];
      assert a == c;
      assert s[|a.Label()| + |Arrow|..] == b.Label();
      assert t[|c.Label()| + |Arrow|..] == d.Label();
    }
  }

  /** A shift is never "X → X", and a reported shift determines both classifications. */
  lemma ShiftIsFaithful(baseline: Quality, recent: Quality)
    ensures forall q: Quality :: Shift(baseline, recent) != q.Label() + Arrow + q.Label()
    ensures forall b, r: Quality :: b != r && Shift(baseline, recent) == Shift(b, r) ==> baseline == b && recent == r
  {
    forall q: Quality ensures Shift(baseline, recent) != q.Label() + Arrow + q.Label() {
      LabelPairInjective(baseline, recent, q, q);
    }
    forall b, r: Quality | b != r && Shift(baseline, recent) == Shift(b, r) ensures baseline == b && recent == r {
      LabelPairInjective(baseline, recent, b, r);
    }
  }

  /** `analyze(purchase_history)`. */
  function Analyze(history: PurchaseHistory): (r: BehaviorSignals)
    ensures var baseline, recent := Period(history, "month_1"), Period(history, "month_3");
      && (forall c :: c in r.disappearedCategories <==> Bought(baseline, c) && !Bought(recent, c))
      && (forall c :: c in r.emergedCategories <==> Bought(recent, c) && !Bought(baseline, c))
      && r.baselineItemCount == |baseline| && r.recentItemCount == |recent|
      && (r.velocityTrend.Label() == "Increasing" <==> |recent| > |baseline|)
      && (r.velocityTrend.Label() == "Decreasing" <==> |recent| < |baseline|)
      && (r.velocityTrend.Label() == "Stable" <==> |recent| == |baseline|)
      && (r.qualityShift == "Stable" <==> QualityOf(baseline) == QualityOf(recent))
      && (r.qualityShift != "Stable" ==>
            r.qualityShift == QualityOf(baseline).Label() + Arrow + QualityOf(recent).Label())
  {
    var month1 := Period(history, "month_1");
    var month3 := Period(history, "month_3");
    var categories1 := Categories(month1);
    var categories3 := Categories(month3);
    CategoriesAreBought(month1);
    CategoriesAreBought(month3);
    BehaviorSignals(
      categories1 - categories3,
      categories3 - categories1,
      Trend(|month1|, |month3|),
      Shift(QualityOf(month1), QualityOf(month3)),
      |month1|,
      |month3|)
  }

  /** The category set holds exactly the categories something was bought in. */
  lemma CategoriesAreBought(basket: seq<PurchaseRecord>)
    ensures forall c :: c in Categories(basket) <==> Bought(basket, c)
  {
  }

  /** An item adds at most one to each counter, and may add one to both. */
  lemma HitsStep(basket: seq<PurchaseRecord>, p: PurchaseRecord, keywords: seq<string>)
    ensures Hits(basket + [p], keywords) == Hits(basket, keywords) + (if Mentions(p, keywords) then 1 else 0)
  {
    assert (basket + [p])[..|basket|] == basket;
  }

  /** With neither period present, nothing disappeared, emerged or changed. */
  lemma AbsentPeriods(history: PurchaseHistory)
    requires "month_1" !in history && "month_3" !in history
    ensures Analyze(history) == BehaviorSignals({}, {}, Stable, "Stable", 0, 0)
  {
  }

  /**
   * Disappeared categories are baseline categories absent from the recent
   * month, emerged ones the reverse, and no category is both.
   */
  lemma CategoryDifferences(history: PurchaseHistory)
    ensures var r, baseline, recent := Analyze(history), Period(history, "month_1"), Period(history, "month_3");
      && r.disappearedCategories <= Categories(baseline)
      && r.disappearedCategories !! Categories(recent)
      && r.emergedCategories <= Categories(recent)
      && r.emergedCategories !! Categories(baseline)
      && r.disappearedCategories !! r.emergedCategories
  {
  }

  /** Matching ignores case: an item and its lower-cased name match the same keywords. */
  lemma MentionsIgnoresCase(p: PurchaseRecord, keywords: seq<string>)
    ensures Mentions(p, keywords) <==> Mentions(PurchaseRecord(Lower(p.item), p.category), keywords)
  {
    LowerIdempotent(p.item);
  }

  /** A name without g, m, t, w, h or l, in either case, mentions no premium keyword. */
  lemma NotPremium(p: PurchaseRecord)
    requires Avoids(p.item, "gGmMtTwWhHlL")
    ensures !Mentions(p, PremiumKeywords)
  {
    var name := Lower(p.item);
    forall i | 0 <= i < |name| ensures name[i] !in "gmtwhl" {
      assert p.item[i] !in "gGmMtTwWhHlL";
    }
    forall k | k in PremiumKeywords ensures !Contains(name, k) {
      var c := if k == "fresh" then 'h' else if k == "luxury" then 'l' else if k == "wagyu" then 'w'
        else if k == "artisan" then 't' else if k == "premium" || k == "imported" then 'm' else 'g';
      NotContainsMissingChar(name, k, c);
    }
  }

  /** A name without v, b, t, f or y, in either case, mentions no value keyword. */
  lemma NotValue(p: PurchaseRecord)
    requires Avoids(p.item, "vVbBtTfFyY")
    ensures !Mentions(p, ValueKeywords)
  {
    var name := Lower(p.item);
    forall i | 0 <= i < |name| ensures name[i] !in "vbtfy" {
      assert p.item[i] !in "vVbBtTfFyY";
    }
    forall k | k in ValueKeywords ensures !Contains(name, k) {
      var c := if k == "value" then 'v' else if k == "frozen" then 'f' else if k == "economy" then 'y'
        else if k == "basic" || k == "budget" then 'b' else 't';
      NotContainsMissingChar(name, k, c);
    }
  }

  /** "Organic Frozen Peas", lower-cased, holds "organic" and "frozen". */
  lemma PeasMentionBoth(name: string)
    requires name == "Organic Frozen Peas"
    ensures Contains(Lower(name), "organic") && Contains(Lower(name), "frozen")
  {
    assert name[0..7] == "Organic" && name[8..14] == "Frozen";
    assert Lower("Organic") == "organic" && Lower("Frozen") == "frozen";
    LowerOccurs(name, "organic", 0);
    LowerOccurs(name, "frozen", 8);
  }

  /** An item naming one premium and one value keyword counts for both, so on its own it is Neutral. */
  lemma TieIsNeutral()
    ensures QualityOf([PurchaseRecord("Organic Frozen Peas", "frozen")]) == Neutral
  {
    var p := PurchaseRecord("Organic Frozen Peas", "frozen");
    PeasMentionBoth(p.item);
    assert PremiumKeywords[0] == "organic" && ValueKeywords[5] == "frozen";
    assert Mentions(p, PremiumKeywords) && Mentions(p, ValueKeywords);
    HitsStep([], p, PremiumKeywords);
    HitsStep([], p, ValueKeywords);
  }

  /** A basket of one item that mentions only premium keywords is Premium. */
  lemma OnlyPremium(p: PurchaseRecord)
    requires Mentions(p, PremiumKeywords) && !Mentions(p, ValueKeywords)
    ensures QualityOf([p]) == Premium
  {
    HitsStep([], p, PremiumKeywords);
    HitsStep([], p, ValueKeywords);
  }

  /** A basket of two items that both mention only value keywords is Value. */
  lemma OnlyValue(p: PurchaseRecord, q: PurchaseRecord)
    requires !Mentions(p, PremiumKeywords) && Mentions(p, ValueKeywords)
    requires !Mentions(q, PremiumKeywords) && Mentions(q, ValueKeywords)
    ensures QualityOf([p, q]) == Value
  {
    HitsStep([], p, PremiumKeywords);
    HitsStep([], p, ValueKeywords);
    HitsStep([p], q, PremiumKeywords);
    HitsStep([p], q, ValueKeywords);
    assert [p] + [q] == [p, q];
  }

  /** An item whose name starts with a keyword, in any case, mentions it. */
  lemma MentionsPrefix(p: PurchaseRecord, keywords: seq<string>, i: nat)
    requires i < |keywords| && |keywords[i]| <= |p.item| && Lower(p.item[..|keywords[i]|]) == keywords[i]
    ensures Mentions(p, keywords)
  {
    assert p.item[0..|keywords[i]|] == p.item[..|keywords[i]|];
    LowerOccurs(p.item, keywords[i], 0);
    assert keywords[i] in keywords;
  }

  /** "organic kale" names a premium keyword. */
  lemma KaleIsPremium(kale: PurchaseRecord)
    requires kale.item == "organic kale"
    ensures Mentions(kale, PremiumKeywords)
  {
    assert PremiumKeywords[0] == "organic";
    MentionsPrefix(kale, PremiumKeywords, 0);
  }

  /** "organic kale" avoids the letters of every value keyword. */
  lemma KaleAvoidsValueLetters(name: string)
    requires name == "organic kale"
    ensures Avoids(name, "vVbBtTfFyY")
  {
  }

  /** "organic kale" names no value keyword. */
  lemma KaleIsNotValue(kale: PurchaseRecord)
    requires kale.item == "organic kale"
    ensures !Mentions(kale, ValueKeywords)
  {
    KaleAvoidsValueLetters(kale.item);
    NotValue(kale);
  }

  /** "frozen pizza" and "frozen fries" name a value keyword. */
  lemma FrozenIsValue(p: PurchaseRecord)
    requires p.item == "frozen pizza" || p.item == "frozen fries"
    ensures Mentions(p, ValueKeywords)
  {
    assert ValueKeywords[5] == "frozen";
    MentionsPrefix(p, ValueKeywords, 5);
  }

  /** "frozen pizza" and "frozen fries" avoid the letters of every premium keyword. */
  lemma FrozenAvoidsPremiumLetters(name: string)
    requires name == "frozen pizza" || name == "frozen fries"
    ensures Avoids(name, "gGmMtTwWhHlL")
  {
  }

  /** "frozen pizza" and "frozen fries" name no premium keyword. */
  lemma FrozenIsNotPremium(p: PurchaseRecord)
    requires p.item == "frozen pizza" || p.item == "frozen fries"
    ensures !Mentions(p, PremiumKeywords)
  {
    FrozenAvoidsPremiumLetters(p.item);
    NotPremium(p);
  }

  /** The scenario's month-1 basket is Premium and its month-3 basket is Value. */
  lemma ScenarioQualities(kale: PurchaseRecord, pizza: PurchaseRecord, fries: PurchaseRecord)
    requires kale.item == "organic kale" && pizza.item == "frozen pizza" && fries.item == "frozen fries"
    ensures QualityOf([kale]) == Premium && QualityOf([pizza, fries]) == Value
  {
    KaleIsPremium(kale);
    KaleIsNotValue(kale);
    FrozenIsValue(pizza);
    FrozenIsValue(fries);
    FrozenIsNotPremium(pizza);
    FrozenIsNotPremium(fries);
    OnlyPremium(kale);
    OnlyValue(pizza, fries);
  }

  /** The scenario's month-1 basket is all produce and its month-3 basket all frozen. */
  lemma ScenarioCategories(kale: PurchaseRecord, pizza: PurchaseRecord, fries: PurchaseRecord)
    requires kale.category == "produce" && pizza.category == "frozen" && fries.category == "frozen"
    ensures Categories([kale]) == {"produce"} && Categories([pizza, fries]) == {"frozen"}
  {
  }

  /** Any history whose two periods have these qualities, categories and sizes gives the scenario's signals. */
  lemma ScenarioSignals(baseline: seq<PurchaseRecord>, recent: seq<PurchaseRecord>)
    requires QualityOf(baseline) == Premium && QualityOf(recent) == Value
    requires Categories(baseline) == {"produce"} && Categories(recent) == {"frozen"}
    requires |baseline| == 1 && |recent| == 2
    ensures Analyze(map["month_1" := baseline, "month_3" := recent])
      == BehaviorSignals({"produce"}, {"frozen"}, Increasing, "Premium" + Arrow + "Value", 1, 2)
  {
    var history := map["month_1" := baseline, "month_3" := recent];
    assert Period(history, "month_1") == baseline && Period(history, "month_3") == recent;
  }

  /**
   * One premium item in month 1, two frozen items in month 3: produce
   * disappeared, frozen emerged, velocity up, quality Premium → Value.
   */
  lemma Scenario()
    ensures Analyze(map[
        "month_1" := [PurchaseRecord("organic kale", "produce")],
        "month_3" := [PurchaseRecord("frozen pizza", "frozen"), PurchaseRecord("frozen fries", "frozen")]])
      == BehaviorSignals({"produce"}, {"frozen"}, Increasing, "Premium" + Arrow + "Value", 1, 2)
  {
    var kale := PurchaseRecord("organic kale", "produce");
    var pizza := PurchaseRecord("frozen pizza", "frozen");
    var fries := PurchaseRecord("frozen fries", "frozen");
    ScenarioQualities(kale, pizza, fries);
    ScenarioCategories(kale, pizza, fries);
    ScenarioSignals([kale], [pizza, fries]);
  }
}
