/** The four category evaluators of src/components/ContentEvaluation.tsx and the overall score
    that the component computes from them. Each evaluator pushes one detail per check and bumps
    its score for every check that passed; module Rubric gives the checks themselves. */
module Evaluation {
  import opened Wrappers
  import opened Text
  import opened Rubric
  import opened Content

  /** The checks the component runs, four categories in order. */
  datatype Check =
    | TitleLengthCheck | TitlePromotionCheck | TitlePunctuationCheck | TitleCapitalizationCheck
    | TitleRepetitionCheck
    | BulletCountCheck | BulletLengthCheck | BulletCapitalCheck | BulletPeriodCheck | BulletPromotionCheck
    | DescriptionPresenceCheck | DescriptionLengthCheck | DescriptionSymbolCheck | DescriptionBrandCheck
    | DescriptionSuperlativeCheck
    | ImageCountCheck | EnhancedContentCheck | VideoCountCheck

  /** The recommendations the component gives; four of them report an observed figure. */
  datatype Advice =
    | ShortenTitle | RemovePromotionalPhrases | RemoveTitleSymbols | CapitalizeMajorWords | AvoidRepetition
    | BulletCountIs(count: nat) | BulletLengthsAre(valid: nat, total: nat) | CapitalizeBullets
    | RemoveEndingPeriods | RemovePromotionalLanguage
    | AddDescription | DescriptionLengthIs(length: nat) | RemoveSpecialSymbols | RemoveBrandReferences
    | RemoveSuperlatives
    | ImageCountIs(images: int) | AddEnhancedContent | AddVideo

  /** The four categories. */
  datatype CategoryName = TitleCategory | BulletCategory | DescriptionCategory | MediaCategory

  /** One entry of `details`: a recommendation is present only when the check failed. */
  datatype CheckResult = CheckResult(check: Check, passed: bool, recommendation: Option<Advice>)

  /** `EvaluationResult`. */
  datatype EvaluationResult =
    EvaluationResult(category: CategoryName, passed: bool, score: int, maxScore: int, details: seq<CheckResult>)

  // ---------------------------------------------------------------- the text the component shows

  /** The `check` string of each detail. */
  function CheckText(c: Check): string {
    match c
    case TitleLengthCheck => "Title length is within 200 characters"
    case TitlePromotionCheck => "No promotional phrases"
    case TitlePunctuationCheck => "No excessive punctuation or prohibited symbols"
    case TitleCapitalizationCheck => "Proper capitalization of major words"
    case TitleRepetitionCheck => "No excessive word repetition"
    case BulletCountCheck => "Has 5 bullet points"
    case BulletLengthCheck => "Each bullet point is between 300-555 characters"
    case BulletCapitalCheck => "Each bullet point starts with a capital letter"
    case BulletPeriodCheck => "No bullet points end with a period"
    case BulletPromotionCheck => "No promotional language or subjective claims"
    case DescriptionPresenceCheck => "Description is present"
    case DescriptionLengthCheck => "Description is within 700 characters"
    case DescriptionSymbolCheck => "No special symbols (\U{2122}, \U{00AE}, \U{20AC}, \U{2020}, \U{00A9}, etc.)"
    case DescriptionBrandCheck => "No Amazon references"
    case DescriptionSuperlativeCheck => "No superlatives or exaggerated claims"
    case ImageCountCheck => "Has at least 6 images"
    case EnhancedContentCheck => "Has enhanced content (A+ Content)"
    case VideoCountCheck => "Has at least 1 video"
  }

  /** The `recommendation` string of each detail. */
  function AdviceText(a: Advice): string {
    match a
    case ShortenTitle => "Shorten title to 200 characters or less"
    case RemovePromotionalPhrases => "Remove promotional phrases like \"best\", \"amazing\", etc."
    case RemoveTitleSymbols => "Remove excessive punctuation and prohibited symbols"
    case CapitalizeMajorWords => "Capitalize each major word (except small prepositions/articles/conjunctions)"
    case AvoidRepetition => "Avoid repeating the same word more than twice"
    case BulletCountIs(count) => "Currently has " + NatToString(count) + " bullet points. Amazon recommends exactly 5."
    case BulletLengthsAre(valid, total) =>
      NatToString(valid) + "/" + NatToString(total) + " bullet points have the correct length"
    case CapitalizeBullets => "Start each bullet point with a capital letter"
    case RemoveEndingPeriods => "Remove ending periods from bullet points"
    case RemovePromotionalLanguage => "Remove promotional language and subjective claims"
    case AddDescription => "Add a product description"
    case DescriptionLengthIs(length) =>
      "Current length: " + NatToString(length) + " characters. Shorten to 700 or less."
    case RemoveSpecialSymbols => "Remove special symbols like \U{2122}, \U{00AE}, \U{20AC}, \U{2020}, \U{00A9}"
    case RemoveBrandReferences => "Remove references to Amazon"
    case RemoveSuperlatives => "Remove superlatives like \"best,\" \"perfect,\" \"ultimate,\" etc."
    case ImageCountIs(images) =>
      "Currently has " + IntToString(images) + " images. Add more to meet the minimum requirement."
    case AddEnhancedContent => "Add enhanced content (A+ Content) to improve product presentation"
    case AddVideo => "Amazon recommends at least 1 video. Currently has none."
  }

  /** The `category` string of each result. */
  function CategoryText(c: CategoryName): string {
    match c
    case TitleCategory => "1. Title"
    case BulletCategory => "2. Bullet Points"
    case DescriptionCategory => "3. Description"
    case MediaCategory => "4. Images & Videos & Enhanced Content"
  }

  // ---------------------------------------------------------------- checks and recommendations per category

  const TitleCheckList: seq<Check> :=
    [TitleLengthCheck, TitlePromotionCheck, TitlePunctuationCheck, TitleCapitalizationCheck, TitleRepetitionCheck]

  const TitleAdvice: seq<Advice> :=
    [ShortenTitle, RemovePromotionalPhrases, RemoveTitleSymbols, CapitalizeMajorWords, AvoidRepetition]

  const BulletCheckList: seq<Check> :=
    [BulletCountCheck, BulletLengthCheck, BulletCapitalCheck, BulletPeriodCheck, BulletPromotionCheck]

  /** The bullet-point recommendations; the first two report the observed counts. */
  function BulletAdvice(bullets: seq<string>): (advice: seq<Advice>)
    ensures |advice| == TextChecks
    ensures advice[0] == BulletCountIs(|bullets|)
    ensures advice[1].BulletLengthsAre? && advice[1].total == |bullets|
    ensures advice[1].valid == CountWhere(bullets, HasValidLength) <= |bullets|
    ensures advice[1].valid == |bullets| <==> forall i | 0 <= i < |bullets| :: HasValidLength(bullets[i])
  {
    CountWhereExtremes(bullets, HasValidLength);
    [BulletCountIs(|bullets|), BulletLengthsAre(CountWhere(bullets, HasValidLength), |bullets|),
     CapitalizeBullets, RemoveEndingPeriods, RemovePromotionalLanguage]
  }

  const DescriptionCheckList: seq<Check> :=
    [DescriptionPresenceCheck, DescriptionLengthCheck, DescriptionSymbolCheck, DescriptionBrandCheck,
     DescriptionSuperlativeCheck]

  /** The description recommendations; the second reports the observed length. */
  function DescriptionAdvice(description: string): (advice: seq<Advice>)
    ensures |advice| == TextChecks && advice[1] == DescriptionLengthIs(|description|)
  {
    [AddDescription, DescriptionLengthIs(|description|), RemoveSpecialSymbols, RemoveBrandReferences,
     RemoveSuperlatives]
  }

  const MediaCheckList: seq<Check> := [ImageCountCheck, EnhancedContentCheck, VideoCountCheck]

  /** The media recommendations; the first reports the observed image count. */
  function MediaAdvice(imageCount: int): (advice: seq<Advice>)
    ensures |advice| == MediaChecks && advice[0] == ImageCountIs(imageCount)
  {
    [ImageCountIs(imageCount), AddEnhancedContent, AddVideo]
  }

  // ---------------------------------------------------------------- what a category yields

  /** The detail pushed for one check. */
  function Detail(check: Check, passed: bool, advice: Advice): (d: CheckResult)
    ensures d.check == check && d.passed == passed
    ensures d.recommendation.Some? <==> !passed
    ensures d.recommendation.Some? ==> d.recommendation.value == advice
  {
    CheckResult(check, passed, if passed then None else Some(advice))
  }

  /** The details of a category, check by check in order. */
  function Details(checks: seq<Check>, outcomes: seq<bool>, advice: seq<Advice>): (ds: seq<CheckResult>)
    requires |checks| == |outcomes| == |advice|
    ensures |ds| == |outcomes|
    ensures forall i | 0 <= i < |ds| :: ds[i] == Detail(checks[i], outcomes[i], advice[i])
  {
    seq(|outcomes|, i requires 0 <= i < |outcomes| => Detail(checks[i], outcomes[i], advice[i]))
  }

  /** Number of details whose check passed. */
  function PassedCount(ds: seq<CheckResult>): nat {
    if ds == [] then 0 else (if ds[0].passed then 1 else 0) + PassedCount(ds[1..])
  }

  /** The result a category evaluator returns: its score is the number of passed checks, and it
      passes at `passMark`. */
  function Category(name: CategoryName, maxScore: nat, passMark: nat,
                    checks: seq<Check>, outcomes: seq<bool>, advice: seq<Advice>): EvaluationResult
    requires |checks| == |outcomes| == |advice|
  {
    var score := CountTrue(outcomes);
    EvaluationResult(name, score >= passMark, score, maxScore, Details(checks, outcomes, advice))
  }

  /** What every category result satisfies: one detail per check, a score between 0 and the
      maximum that counts the passed details, and a recommendation exactly on failed checks. */
  predicate WellFormed(r: EvaluationResult) {
    && |r.details| == r.maxScore
    && 0 <= r.score <= r.maxScore
    && r.score == PassedCount(r.details)
    && forall i | 0 <= i < |r.details| :: r.details[i].recommendation.Some? <==> !r.details[i].passed
  }

  /** A category of five checks, built by pushing one detail per check and bumping the score on
      every pass, is the category of those outcomes. */
  lemma FiveChecks(name: CategoryName, passMark: nat, checks: seq<Check>, advice: seq<Advice>,
                   a: bool, b: bool, c: bool, d: bool, e: bool, details: seq<CheckResult>, score: int)
    requires |checks| == |advice| == TextChecks
    requires details == [] + [Detail(checks[0], a, advice[0])] + [Detail(checks[1], b, advice[1])]
                           + [Detail(checks[2], c, advice[2])] + [Detail(checks[3], d, advice[3])]
                           + [Detail(checks[4], e, advice[4])]
    requires score == Bit(a) + Bit(b) + Bit(c) + Bit(d) + Bit(e)
    ensures var r := EvaluationResult(name, score >= passMark, score, TextChecks, details);
      && r == Category(name, TextChecks, passMark, checks, [a, b, c, d, e], advice)
      && WellFormed(r) && r.score == CountTrue([a, b, c, d, e])
  {
    var outcomes := [a, b, c, d, e];
    CountTrueOfFive(outcomes);
    FiveDetails(checks, advice, a, b, c, d, e, details);
    CategoryWellFormed(name, passMark, checks, outcomes, advice);
  }

  lemma FiveDetails(checks: seq<Check>, advice: seq<Advice>, a: bool, b: bool, c: bool, d: bool, e: bool,
                    details: seq<CheckResult>)
    requires |checks| == |advice| == TextChecks
    requires details == [] + [Detail(checks[0], a, advice[0])] + [Detail(checks[1], b, advice[1])]
                           + [Detail(checks[2], c, advice[2])] + [Detail(checks[3], d, advice[3])]
                           + [Detail(checks[4], e, advice[4])]
    ensures details == Details(checks, [a, b, c, d, e], advice)
  {
    var ds := Details(checks, [a, b, c, d, e], advice);
    assert |details| == |ds|;
    forall i | 0 <= i < |ds| ensures details[i] == ds[i] {
    }
  }

  /** The same for a category of three checks. */
  lemma ThreeChecks(name: CategoryName, passMark: nat, checks: seq<Check>, advice: seq<Advice>,
                    a: bool, b: bool, c: bool, details: seq<CheckResult>, score: int)
    requires |checks| == |advice| == MediaChecks
    requires details == [] + [Detail(checks[0], a, advice[0])] + [Detail(checks[1], b, advice[1])]
                           + [Detail(checks[2], c, advice[2])]
    requires score == Bit(a) + Bit(b) + Bit(c)
    ensures var r := EvaluationResult(name, score >= passMark, score, MediaChecks, details);
      && r == Category(name, MediaChecks, passMark, checks, [a, b, c], advice)
      && WellFormed(r) && r.score == CountTrue([a, b, c])
  {
    var outcomes := [a, b, c];
    assert CountTrue(outcomes) == Bit(a) + Bit(b) + Bit(c) by {
      assert outcomes[1..][1..] == [c];
    }
    assert details == Details(checks, outcomes, advice);
    CategoryWellFormed(name, passMark, checks, outcomes, advice);
  }

  /** The score counted from the outcomes is the number of passed details. */
  lemma {:induction false} PassedCountOfDetails(checks: seq<Check>, outcomes: seq<bool>, advice: seq<Advice>)
    requires |checks| == |outcomes| == |advice|
    ensures PassedCount(Details(checks, outcomes, advice)) == CountTrue(outcomes)
    decreases |outcomes|
  {
    if outcomes != [] {
      var ds := Details(checks, outcomes, advice);
      PassedCountOfDetails(checks[1..], outcomes[1..], advice[1..]);
      assert ds[1..] == Details(checks[1..], outcomes[1..], advice[1..]);
    }
  }

  /** A category result is well formed whenever there is one check and one recommendation per
      check and the maximum is the number of checks. */
  lemma CategoryWellFormed(name: CategoryName, passMark: nat,
                           checks: seq<Check>, outcomes: seq<bool>, advice: seq<Advice>)
    requires |checks| == |outcomes| == |advice|
    ensures var r := Category(name, |outcomes|, passMark, checks, outcomes, advice);
      WellFormed(r) && (r.passed <==> CountTrue(outcomes) >= passMark)
  {
    PassedCountOfDetails(checks, outcomes, advice);
  }

  // ---------------------------------------------------------------- the four evaluators

  /** What `evaluateTitle` returns. */
  function TitleEvaluation(title: string): EvaluationResult {
    Category(TitleCategory, TextChecks, TextPassMark, TitleCheckList, TitleOutcomes(title), TitleAdvice)
  }

  /** What `evaluateBulletPoints` returns. */
  function BulletEvaluation(bulletPoints: seq<string>): EvaluationResult {
    Category(BulletCategory, TextChecks, TextPassMark, BulletCheckList, BulletOutcomes(bulletPoints),
             BulletAdvice(bulletPoints))
  }

  /** What `evaluateDescription` returns. */
  function DescriptionEvaluation(description: string): EvaluationResult {
    Category(DescriptionCategory, TextChecks, TextPassMark, DescriptionCheckList, DescriptionOutcomes(description),
             DescriptionAdvice(description))
  }

  /** What `evaluateImages` returns. */
  function MediaEvaluation(imageCount: int, videoCount: int, hasEnhancedContent: bool): EvaluationResult {
    Category(MediaCategory, MediaChecks, MediaPassMark, MediaCheckList,
             MediaOutcomes(imageCount, videoCount, hasEnhancedContent), MediaAdvice(imageCount))
  }

  /** `evaluateTitle`. */
  method EvaluateTitle(title: string) returns (r: EvaluationResult)
    ensures r == TitleEvaluation(title)
    ensures WellFormed(r) && r.maxScore == TextChecks && r.score == TitleScore(title)
    ensures r.passed <==> r.score >= TextPassMark
  {
    var details: seq<CheckResult> := [];
    var score := 0;
    var maxScore := TextChecks;

    var isLengthValid := TitleLengthValid(title);
    details := details + [Detail(TitleCheckList[0], isLengthValid, TitleAdvice[0])];
    if isLengthValid { score := score + 1; }

    var hasPromotionalPhrases := HasPromotionalPhrases(title);
    details := details + [Detail(TitleCheckList[1], !hasPromotionalPhrases, TitleAdvice[1])];
    if !hasPromotionalPhrases { score := score + 1; }

    var hasExcessivePunctuation := HasExcessivePunctuation(title);
    details := details + [Detail(TitleCheckList[2], !hasExcessivePunctuation, TitleAdvice[2])];
    if !hasExcessivePunctuation { score := score + 1; }

    var hasProperCapitalization := HasProperCapitalization(title);
    details := details + [Detail(TitleCheckList[3], hasProperCapitalization, TitleAdvice[3])];
    if hasProperCapitalization { score := score + 1; }

    var hasExcessiveRepetition := HasExcessiveRepetition(title);
    details := details + [Detail(TitleCheckList[4], !hasExcessiveRepetition, TitleAdvice[4])];
    if !hasExcessiveRepetition { score := score + 1; }

    r := EvaluationResult(TitleCategory, score >= TextPassMark, score, maxScore, details);
    FiveChecks(TitleCategory, TextPassMark, TitleCheckList, TitleAdvice, isLengthValid, !hasPromotionalPhrases,
               !hasExcessivePunctuation, hasProperCapitalization, !hasExcessiveRepetition, details, score);
  }

  /** `evaluateBulletPoints`. */
  method EvaluateBulletPoints(bulletPoints: seq<string>) returns (r: EvaluationResult)
    ensures r == BulletEvaluation(bulletPoints)
    ensures WellFormed(r) && r.maxScore == TextChecks && r.score == BulletScore(bulletPoints)
    ensures r.passed <==> r.score >= TextPassMark
  {
    var details: seq<CheckResult> := [];
    var score := 0;
    var maxScore := TextChecks;
    var advice := BulletAdvice(bulletPoints);

    var hasFiveBullets := |bulletPoints| == BulletTarget;
    details := details + [Detail(BulletCheckList[0], hasFiveBullets, advice[0])];
    if hasFiveBullets { score := score + 1; }

    var validLengthBullets := CountWhere(bulletPoints, HasValidLength);
    var allBulletsValidLength := validLengthBullets == |bulletPoints| && |bulletPoints| > 0;
    details := details + [Detail(BulletCheckList[1], allBulletsValidLength, advice[1])];
    if allBulletsValidLength { score := score + 1; }

    var properlyCapitalizedBullets := CountWhere(bulletPoints, StartsWithUpper);
    var allBulletsProperlyCapitalized := properlyCapitalizedBullets == |bulletPoints| && |bulletPoints| > 0;
    details := details + [Detail(BulletCheckList[2], allBulletsProperlyCapitalized, advice[2])];
    if allBulletsProperlyCapitalized { score := score + 1; }

    var noPeriodEndBullets := CountWhere(bulletPoints, EndsWithoutPeriod);
    var allBulletsNoPeriodEnd := noPeriodEndBullets == |bulletPoints| && |bulletPoints| > 0;
    details := details + [Detail(BulletCheckList[3], allBulletsNoPeriodEnd, advice[3])];
    if allBulletsNoPeriodEnd { score := score + 1; }

    var bulletsWithPromotionalLanguage := CountWhere(bulletPoints, IsPromotional);
    var noPromotionalLanguage := bulletsWithPromotionalLanguage == 0;
    details := details + [Detail(BulletCheckList[4], noPromotionalLanguage, advice[4])];
    if noPromotionalLanguage { score := score + 1; }

    r := EvaluationResult(BulletCategory, score >= TextPassMark, score, maxScore, details);
    FiveChecks(BulletCategory, TextPassMark, BulletCheckList, advice, hasFiveBullets, allBulletsValidLength,
               allBulletsProperlyCapitalized, allBulletsNoPeriodEnd, noPromotionalLanguage, details, score);
  }

  /** `evaluateDescription`. */
  method EvaluateDescription(description: string) returns (r: EvaluationResult)
    ensures r == DescriptionEvaluation(description)
    ensures WellFormed(r) && r.maxScore == TextChecks && r.score == DescriptionScore(description)
    ensures r.passed <==> r.score >= TextPassMark
  {
    var details: seq<CheckResult> := [];
    var score := 0;
    var maxScore := TextChecks;
    var advice := DescriptionAdvice(description);

    var hasDescription := |description| > 0;
    details := details + [Detail(DescriptionCheckList[0], hasDescription, advice[0])];
    if hasDescription { score := score + 1; }

    var isLengthValid := |description| <= DescriptionMaxLength;
    details := details + [Detail(DescriptionCheckList[1], isLengthValid, advice[1])];
    if isLengthValid { score := score + 1; }

    var hasSpecialSymbols := HasCharIn(description, DescriptionSymbols);
    details := details + [Detail(DescriptionCheckList[2], !hasSpecialSymbols, advice[2])];
    if !hasSpecialSymbols { score := score + 1; }

    var hasAmazonReferences := HasWholeWordIgnoreCase(description, BrandWord);
    details := details + [Detail(DescriptionCheckList[3], !hasAmazonReferences, advice[3])];
    if !hasAmazonReferences { score := score + 1; }

    var hasSuperlatives := ContainsAny(Lower(description), Superlatives);
    details := details + [Detail(DescriptionCheckList[4], !hasSuperlatives, advice[4])];
    if !hasSuperlatives { score := score + 1; }

    r := EvaluationResult(DescriptionCategory, score >= TextPassMark, score, maxScore, details);
    FiveChecks(DescriptionCategory, TextPassMark, DescriptionCheckList, advice, hasDescription, isLengthValid,
               !hasSpecialSymbols, !hasAmazonReferences, !hasSuperlatives, details, score);
  }

  /** `evaluateImages`. */
  method EvaluateImages(imageCount: int, videoCount: int, hasEnhancedContent: bool) returns (r: EvaluationResult)
    ensures r == MediaEvaluation(imageCount, videoCount, hasEnhancedContent)
    ensures WellFormed(r) && r.maxScore == MediaChecks && r.score == MediaScore(imageCount, videoCount, hasEnhancedContent)
    ensures r.passed <==> r.score >= MediaPassMark
  {
    var details: seq<CheckResult> := [];
    var score := 0;
    var maxScore := MediaChecks;
    var advice := MediaAdvice(imageCount);

    var hasMinimumImages := imageCount >= MinImages;
    details := details + [Detail(MediaCheckList[0], hasMinimumImages, advice[0])];
    if hasMinimumImages { score := score + 1; }

    details := details + [Detail(MediaCheckList[1], hasEnhancedContent, advice[1])];
    if hasEnhancedContent { score := score + 1; }

    var hasMinimumVideos := videoCount >= MinVideos;
    details := details + [Detail(MediaCheckList[2], hasMinimumVideos, advice[2])];
    if hasMinimumVideos { score := score + 1; }

    r := EvaluationResult(MediaCategory, score >= MediaPassMark, score, maxScore, details);
    ThreeChecks(MediaCategory, MediaPassMark, MediaCheckList, advice, hasMinimumImages, hasEnhancedContent,
                hasMinimumVideos, details, score);
  }

  // ---------------------------------------------------------------- overall score

  /** `overallStatus`. */
  datatype Status = Poor | Fair | Good | Excellent

  /** The overall figures the component shows. */
  datatype Overall = Overall(totalScore: int, maxPossibleScore: int, overallPercentage: int, overallStatus: Status)

  /** The maximum of the four categories together: 5 + 5 + 5 + 3. */
  const MaxTotal := 3 * TextChecks + MediaChecks

  const ExcellentMark := 90
  const GoodMark := 75
  const FairMark := 50

  /** `evaluations.reduce((sum, evaluation) => sum + evaluation.score, 0)`. */
  function TotalScore(evaluations: seq<EvaluationResult>): int {
    if evaluations == [] then 0
    else TotalScore(evaluations[..|evaluations| - 1]) + evaluations[|evaluations| - 1].score
  }

  /** The same reduction over `maxScore`. */
  function MaxPossibleScore(evaluations: seq<EvaluationResult>): int {
    if evaluations == [] then 0
    else MaxPossibleScore(evaluations[..|evaluations| - 1]) + evaluations[|evaluations| - 1].maxScore
  }

  /** The reductions over four evaluations, written out. */
  lemma TotalsOfFour(a: EvaluationResult, b: EvaluationResult, c: EvaluationResult, d: EvaluationResult)
    ensures TotalScore([a, b, c, d]) == a.score + b.score + c.score + d.score
    ensures MaxPossibleScore([a, b, c, d]) == a.maxScore + b.maxScore + c.maxScore + d.maxScore
  {
    assert [a, b, c, d][..3] == [a, b, c];
    assert [a, b, c][..2] == [a, b];
    assert [a, b][..1] == [a];
    assert [a][..0] == [];
    assert TotalScore([a]) == a.score;
    assert TotalScore([a, b]) == a.score + b.score;
    assert TotalScore([a, b, c]) == a.score + b.score + c.score;
    assert MaxPossibleScore([a]) == a.maxScore;
    assert MaxPossibleScore([a, b]) == a.maxScore + b.maxScore;
    assert MaxPossibleScore([a, b, c]) == a.maxScore + b.maxScore + c.maxScore;
  }

  /** Scores between 0 and their maxima add up to a total between 0 and the total maximum. */
  lemma {:induction false} TotalsBounded(evaluations: seq<EvaluationResult>)
    requires forall i | 0 <= i < |evaluations| :: 0 <= evaluations[i].score <= evaluations[i].maxScore
    ensures 0 <= TotalScore(evaluations) <= MaxPossibleScore(evaluations)
    decreases |evaluations|
  {
    if evaluations != [] {
      TotalsBounded(evaluations[..|evaluations| - 1]);
    }
  }

  /** `Math.round((totalScore / maxPossibleScore) * 100)`: the integer nearest to the exact
      percentage, a half rounding up. */
  function Percentage(totalScore: int, maxPossibleScore: int): (p: int)
    requires maxPossibleScore > 0
    ensures 2 * maxPossibleScore * p - maxPossibleScore <= 200 * totalScore
    ensures 200 * totalScore < 2 * maxPossibleScore * p + maxPossibleScore
  {
    (200 * totalScore + maxPossibleScore) / (2 * maxPossibleScore)
  }

  /** A total between 0 and the maximum gives a percentage between 0 and 100. */
  lemma PercentageBounded(totalScore: int, maxPossibleScore: int)
    requires maxPossibleScore > 0 && 0 <= totalScore <= maxPossibleScore
    ensures 0 <= Percentage(totalScore, maxPossibleScore) <= 100
  {
    var m, p := maxPossibleScore, Percentage(totalScore, maxPossibleScore);
    if p < 0 {
      ProductNonNegative(m, -p);
      assert false;
    }
    if p > 100 {
      ProductNonNegative(m, p - 101);
      assert false;
    }
  }

  lemma ProductNonNegative(a: int, b: int)
    requires a >= 0 && b >= 0
    ensures a * b >= 0
  {
  }

  /** The if/else chain selecting `overallStatus`. */
  function StatusOf(percentage: int): Status {
    if percentage >= ExcellentMark then Excellent
    else if percentage >= GoodMark then Good
    else if percentage >= FairMark then Fair
    else Poor
  }

  /** The status stated on the 18-point total directly. */
  function StatusByTotal(totalScore: int): Status {
    if totalScore >= 17 then Excellent
    else if totalScore >= 14 then Good
    else if totalScore >= 9 then Fair
    else Poor
  }

  /** The figures computed from the four evaluations. */
  function Summarize(evaluations: seq<EvaluationResult>): Overall
    requires MaxPossibleScore(evaluations) > 0
  {
    var total := TotalScore(evaluations);
    var max := MaxPossibleScore(evaluations);
    var percentage := Percentage(total, max);
    Overall(total, max, percentage, StatusOf(percentage))
  }

  /** On the 18-point scale, the percentage thresholds 90, 75 and 50 fall between totals 16 and
      17, 13 and 14, and 8 and 9. */
  lemma StatusThresholds(totalScore: int)
    requires 0 <= totalScore <= MaxTotal
    ensures StatusOf(Percentage(totalScore, MaxTotal)) == StatusByTotal(totalScore)
  {
    var p := Percentage(totalScore, MaxTotal);
    assert 36 * p - 18 <= 200 * totalScore < 36 * p + 18;
    if totalScore >= 17 {
      assert p >= 90;
    } else if totalScore >= 14 {
      assert 75 <= p < 90;
    } else if totalScore >= 9 {
      assert 50 <= p < 75;
    } else {
      assert p < 50;
    }
  }

  /** Four category results with maxima 5, 5, 5 and 3 and scores within them: the overall figures
      are their sum, out of 18, a percentage between 0 and 100, and the status read off the total. */
  lemma SummaryOfFour(a: EvaluationResult, b: EvaluationResult, c: EvaluationResult, d: EvaluationResult)
    requires a.maxScore == b.maxScore == c.maxScore == TextChecks && d.maxScore == MediaChecks
    requires 0 <= a.score <= a.maxScore && 0 <= b.score <= b.maxScore
    requires 0 <= c.score <= c.maxScore && 0 <= d.score <= d.maxScore
    ensures MaxPossibleScore([a, b, c, d]) == MaxTotal
    ensures var overall := Summarize([a, b, c, d]);
      && overall.totalScore == a.score + b.score + c.score + d.score
      && overall.maxPossibleScore == MaxTotal
      && 0 <= overall.totalScore <= MaxTotal
      && 0 <= overall.overallPercentage <= 100
      && 2 * MaxTotal * overall.overallPercentage - MaxTotal <= 200 * overall.totalScore
      && 200 * overall.totalScore < 2 * MaxTotal * overall.overallPercentage + MaxTotal
      && overall.overallStatus == StatusByTotal(overall.totalScore)
  {
    TotalsOfFour(a, b, c, d);
    var total := a.score + b.score + c.score + d.score;
    PercentageBounded(total, MaxTotal);
    StatusThresholds(total);
  }

  /** The evaluation of a product record: the four category results, in order, and the overall
      figures. */
  method EvaluateContent(data: ProductContent) returns (evaluations: seq<EvaluationResult>, overall: Overall)
    ensures evaluations == [TitleEvaluation(data.title), BulletEvaluation(data.bulletPoints),
                            DescriptionEvaluation(data.description),
                            MediaEvaluation(data.imageCount, data.videoCount, data.hasEnhancedContent)]
    ensures overall.maxPossibleScore == MaxTotal
    ensures overall.totalScore == TitleScore(data.title) + BulletScore(data.bulletPoints)
                                  + DescriptionScore(data.description)
                                  + MediaScore(data.imageCount, data.videoCount, data.hasEnhancedContent)
    ensures 0 <= overall.totalScore <= MaxTotal
    ensures 0 <= overall.overallPercentage <= 100
    ensures 2 * MaxTotal * overall.overallPercentage - MaxTotal <= 200 * overall.totalScore
                < 2 * MaxTotal * overall.overallPercentage + MaxTotal
    ensures overall.overallStatus == StatusByTotal(overall.totalScore)
  {
    var titleEvaluation := EvaluateTitle(data.title);
    var bulletPointsEvaluation := EvaluateBulletPoints(data.bulletPoints);
    var descriptionEvaluation := EvaluateDescription(data.description);
    var imagesEvaluation := EvaluateImages(data.imageCount, data.videoCount, data.hasEnhancedContent);

    evaluations := [titleEvaluation, bulletPointsEvaluation, descriptionEvaluation, imagesEvaluation];
    SummaryOfFour(titleEvaluation, bulletPointsEvaluation, descriptionEvaluation, imagesEvaluation);
    overall := Summarize(evaluations);
  }
}
