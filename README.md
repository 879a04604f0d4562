# Amazon listing audit — a Dafny model

The audit tool fetches an Amazon product page and extracts a product record from it. The
record holds the title, image URLs and an image count, video presence, bullet points, a
description and whether A+ ("enhanced") content is present. The tool then grades the record
against an editorial rubric. This project models both halves and proves properties of them.

- **Extraction** (`src/app/api/analyze/route.ts`, `POST`; `src/utils/amazonScraper.ts`,
  `scrapeAmazonProduct`). The two files run the same locator cascade:
  - title: the first selector whose trimmed text is non-empty;
  - images: the main image, then the thumbnails after the first, then a fallback selector
    when fewer than two URLs were collected, each URL canonicalised by
    `replace(/\._[^\.]*\./g, '.')` and deduplicated;
  - video: the word "video" anywhere in the body text;
  - bullets: the first selector whose elements yield a kept bullet;
  - enhanced content: any of six selectors matches;
  - description: the first selector whose joined, trimmed text is non-empty.

  The cascade is modelled once. Module `Extraction` gives pure reference definitions and
  their lemmas. Module `Extractor` has imperative methods with the source's loops, each
  proved equal to its reference definition. `Extractor.Analyze` is the route's entry point:
  a failed response becomes an error reply with the response's status. The scraper's entry
  point is `AmazonScraper.ScrapeAmazonProduct`, where a failed response becomes a failure.
  Both run the same methods. The HTML parser and CSS selector engine are abstracted: a
  `Document.Page` answers, for each selector string, the matched elements in document order.
- **Evaluation** (`src/components/ContentEvaluation.tsx`). There are four category
  evaluators:
  - title, five checks, passing at 4;
  - bullet points, five checks, passing at 4;
  - description, five checks, passing at 4;
  - images, video and enhanced content, three checks, passing at 2.

  Each evaluator pushes one detail per check and bumps the score on every pass. The
  aggregation sums the scores and the maxima, rounds the percentage, and maps it to a
  status. Module `Rubric` holds the checks as predicates. Module `Evaluation` holds the
  evaluator methods, their reference functions and the aggregation.

Facts about the code that the model keeps:
- The maximum total is 5 + 5 + 5 + 3 = 18. On 18 points the status thresholds of 90, 75 and
  50 percent fall at totals 17, 14 and 9 (`Evaluation.StatusThresholds`).
- `imageCount` is the number of collected URLs minus the main one. It is taken before the
  list is truncated to 8 URLs, so it can exceed the number of URLs returned.
- The main image uses `src` when it is present and non-empty, and `data-old-hires` when
  `src` is missing or empty (`Extraction.MainImageChoice`).
- The title is the trimmed text of all elements matched by a selector, concatenated.

Strings are sequences of Unicode scalar values, so a length is a count of code points.
`trim`, `\s` and `split(/\s+/)` use ECMAScript's WhiteSpace and LineTerminator set, and `\b`
uses ECMAScript's word characters.
Labels and recommendations are structured values (`Evaluation.Check`, `Evaluation.Advice`,
`Evaluation.CategoryName`). `CheckText`, `AdviceText` and `CategoryText` render each as the
exact string the component shows.

## Model

| member | source | states |
|---|---|---|
| Evaluation.EvaluateTitle | src/components/ContentEvaluation.tsx:138-201 | The title evaluation has one detail per check, with a recommendation exactly on the failed ones. Its score is the number of passed title checks out of 5, and it passes iff the score is at least 4. |
| Evaluation.EvaluateBulletPoints | src/components/ContentEvaluation.tsx:204-269 | The same for the five bullet checks (count exactly 5; every length 300–555; every bullet capitalised; none ends in "." after trimming; no promotional term), on a non-empty list for checks 2–4. |
| Evaluation.EvaluateDescription | src/components/ContentEvaluation.tsx:272-330 | The same for the five description checks: present, at most 700 characters, no ™®€†©, no whole word "amazon" in any case, no superlative substring. |
| Evaluation.EvaluateImages | src/components/ContentEvaluation.tsx:333-371 | Three checks (at least 6 images, enhanced content, at least 1 video), score out of 3, passing at 2. |
| Evaluation.EvaluateContent | src/components/ContentEvaluation.tsx:21-53 | The four results in order. The total is the sum of the four scores, out of 18. The percentage lies within 0–100 and is the rounding of total/18·100. The status follows the total: ≥17 Excellent, ≥14 Good, ≥9 Fair, else Poor. |
| Evaluation.Detail | src/components/ContentEvaluation.tsx:145-149 | A detail keeps its check and outcome and carries a recommendation iff the check failed. |
| Evaluation.BulletAdvice | src/components/ContentEvaluation.tsx:214-224 | The count advice quotes the number of bullets. The length advice quotes the number of bullets whose length is 300–555 (line 219) over the total, and the two numbers are equal iff every bullet has a valid length. |
| Evaluation.FiveChecks | src/components/ContentEvaluation.tsx:139-200 | Pushing five details and bumping the score on each pass yields the category of those outcomes: well formed, with score equal to the number of passes. |
| Evaluation.FiveDetails | src/components/ContentEvaluation.tsx:145-191 | The five pushed details are exactly the details of the five outcomes. |
| Evaluation.ThreeChecks | src/components/ContentEvaluation.tsx:334-370 | The same for the three media checks. |
| Evaluation.PassedCountOfDetails | src/components/ContentEvaluation.tsx:150-197 | The number of passed details equals the number of passed outcomes. |
| Evaluation.CategoryWellFormed | src/components/ContentEvaluation.tsx:194-200 | Every category result is well formed and passes iff its score reaches the pass mark. |
| Evaluation.TotalsOfFour | src/components/ContentEvaluation.tsx:35-37 | The two reductions over four results are the sums of their scores and of their maxima. |
| Evaluation.TotalsBounded | src/components/ContentEvaluation.tsx:36-37 | When every score lies within its maximum, the total lies between 0 and the maximum total. |
| Evaluation.Percentage | src/components/ContentEvaluation.tsx:38 | The percentage is within one half of total/max·100, with halves rounded up, as `Math.round` does. |
| Evaluation.PercentageBounded | src/components/ContentEvaluation.tsx:38 | For a total within its maximum, the percentage lies within 0–100. |
| Evaluation.StatusThresholds | src/components/ContentEvaluation.tsx:41-53 | On 18 points the 90/75/50 percent chain gives Excellent from 17, Good from 14, Fair from 9 and Poor below. |
| Evaluation.SummaryOfFour | src/components/ContentEvaluation.tsx:35-53 | For four results with maxima 5, 5, 5, 3 and scores within them: the maximum is 18, the total is the sum, the percentage is bounded and rounded, and the status is read off the total. |
| Rubric.CountTrue | src/components/ContentEvaluation.tsx:150-192 | The number of passes is at most the number of checks. It equals it iff all checks pass, and is 0 iff none pass. |
| Rubric.CountTrueOfFive | src/components/ContentEvaluation.tsx:150-192 | Five conditional increments add up to the number of passes. |
| Rubric.CountWhere | src/components/ContentEvaluation.tsx:219 | A filter's length is at most the list's. |
| Rubric.CountWhereExtremes | src/components/ContentEvaluation.tsx:219-240 | `filter(p).length === length` iff every bullet satisfies p, and it is 0 iff none does. |
| Rubric.ScoresBounded | src/components/ContentEvaluation.tsx:141-366 | Each category has exactly its 5 or 3 checks, and its score is at most that number. |
| Rubric.ExcessivePunctuationIsAnySymbol | src/components/ContentEvaluation.tsx:162 | The run test adds nothing: the title fails check 3 iff it holds one prohibited symbol. |
| Rubric.CapitalizationFailures | src/components/ContentEvaluation.tsx:171 | Check 4 fails when the title does not start with A–Z or the lower-cased title contains a minor word as a whole word. |
| Rubric.CapitalizedMinorWordFails | src/components/ContentEvaluation.tsx:171 | A minor word in any case ("For", "AND") makes check 4 fail, because the title is lower-cased first. |
| Rubric.EmptyTitle | src/components/ContentEvaluation.tsx:138-201 | An empty title fails length and capitalisation, passes the other three, and scores 3, below the pass mark. |
| Rubric.EmptyBulletList | src/components/ContentEvaluation.tsx:210-260 | No bullets: only the promotional check passes (score 1), because the three "all" checks demand a non-empty list. |
| Rubric.EmptyDescription | src/components/ContentEvaluation.tsx:278-321 | An empty description fails only presence, scores 4 and still passes the category. |
| Rubric.DescriptionLengthLimit | src/components/ContentEvaluation.tsx:287-321 | 700 characters pass the length check. Appending one neutral character fails that check and changes no other description check. |
| Rubric.SymbolsAppend | src/components/ContentEvaluation.tsx:296 | Appending a non-symbol character does not change the symbol check. |
| Rubric.BrandAppend | src/components/ContentEvaluation.tsx:305 | Appending a non-word character does not change the whole-word "amazon" check. |
| Rubric.SuperlativesAppend | src/components/ContentEvaluation.tsx:314-315 | Appending a non-word character does not change the superlative check. |
| Rubric.MediaWithoutVideo | src/components/ContentEvaluation.tsx:339-366 | 7 images, enhanced content and no video pass 2 of 3, which passes the category. |
| Rubric.RepetitionAgreesOffPrototypeNames | src/components/ContentEvaluation.tsx:180-186 | When no token is "constructor" or "\_\_proto\_\_", the repetition test as written equals the intended multiset count. |
| Rubric.RepetitionIsCountAboveTwo | src/components/ContentEvaluation.tsx:180-192 | The intended repetition test (the one the evaluator uses) flags a title iff some lower-cased token occurs more than twice, and then check 5 fails. |
| Rubric.TitleScoreAsWritten | src/components/ContentEvaluation.tsx:150-192 | The title outcomes as the source computes them differ from the model's only in check 5. A title the as-written test flags is also flagged by the intended test, and where only the intended test flags it, the source's score is one higher. |
| Rubric.PromotionalTitlePasses | src/components/ContentEvaluation.tsx:138-201 | "Best Wireless Headphones" fails only the promotional-phrase check: outcomes [pass, fail, pass, pass, pass], score 4, and the category passes. |
| Rubric.RepeatedConstructorEscapes | src/components/ContentEvaluation.tsx:180-186 | "constructor constructor constructor" passes the repetition test as written, while the intended test flags it. |
| Text.Trim | src/app/api/analyze/route.ts:129 | The result is no longer than the input and has no leading or trailing whitespace. |
| Text.TrimStartSpec | src/app/api/analyze/route.ts:129 | Trimming the start removes exactly a maximal whitespace prefix. |
| Text.TrimEndSpec | src/app/api/analyze/route.ts:129 | Trimming the end removes exactly a maximal whitespace suffix. |
| Text.TrimEmpty | src/app/api/analyze/route.ts:129-130 | The trimmed text is empty iff the text is all whitespace. |
| Text.TrimRemovesOnlyEnds | src/app/api/analyze/route.ts:129 | The trimmed text is a contiguous slice of the input, with only whitespace outside it. |
| Text.TrimFixedPoint | src/app/api/analyze/route.ts:303 | Trimming leaves a string unchanged iff it is already trimmed. |
| Text.LowerFixedPoint | src/components/ContentEvaluation.tsx:171 | After `toLowerCase` no ASCII capital remains. A string is unchanged by it iff it holds no ASCII capital, and lowering twice is lowering once. |
| Text.ContainsAppend | src/components/ContentEvaluation.tsx:315 | Appending a character absent from the needle does not change `includes`. |
| Text.FindWholeWordFromIsSearch | src/components/ContentEvaluation.tsx:153 | The scanning search finds a `\b`-delimited match iff one exists at or after the start. |
| Text.IgnoreCaseIsLowered | src/components/ContentEvaluation.tsx:153-171 | A case-insensitive whole-word match (the `/i` flag) is a whole-word match in the lower-cased text. |
| Text.WholeWordIgnoreCaseAppend | src/components/ContentEvaluation.tsx:305 | Appending a non-word character does not create or destroy a whole-word match. |
| Text.SplitOnSpace | src/components/ContentEvaluation.tsx:180 | `split(/\s+/)` always yields at least one piece. |
| Text.SplitOnSpaceSplits | src/components/ContentEvaluation.tsx:180 | The pieces, separated by some non-empty whitespace runs, make up the input. No piece holds whitespace, and only the first and last piece can be empty. |
| Text.SplitOnSpaceUnique | src/components/ContentEvaluation.tsx:180 | Any list of pieces that splits the input this way is the result of `split(/\s+/)`. |
| Text.SplitOnSpaceCharacterised | src/components/ContentEvaluation.tsx:180 | The result equals a list of pieces iff those pieces split the input at its maximal whitespace runs, in both directions. |
| Text.SplitOnSpaceEnds | src/components/ContentEvaluation.tsx:180 | The first piece is empty iff the input is empty or starts with whitespace, and the last iff it is empty or ends with whitespace. A string without whitespace gives exactly itself as the one piece. |
| Text.SplitsIntoEnds | src/components/ContentEvaluation.tsx:180 | The same end facts hold for any such split, and a split has no separator iff the input holds no whitespace. |
| Text.SplitOnSpaceLosesOnlySpace | src/components/ContentEvaluation.tsx:180 | The pieces, concatenated, are the input with its whitespace removed. |
| Text.NatToString | src/components/ContentEvaluation.tsx:214 | Interpolating a count gives decimal digits without leading zeros whose value is the count. |
| Extraction.FirstNonEmptyIndex | src/app/api/analyze/route.ts:128-134 | Every earlier candidate is empty, and the chosen one, if any, is not. |
| Extraction.FirstNonEmpty | src/app/api/analyze/route.ts:128-134 | The cascade's result is empty iff every candidate is empty. |
| Extraction.TitleIsFirstMatch | src/app/api/analyze/route.ts:126-134 | The title is trimmed, empty iff every selector's trimmed text is empty, and otherwise the text of the first selector with a non-empty text. |
| Extraction.FirstDotFrom | src/app/api/analyze/route.ts:145 | `[^\.]*` runs to the next dot or the end. |
| Extraction.Canonical | src/app/api/analyze/route.ts:145 | The replacement never lengthens a URL. |
| Extraction.CanonicalAtToken | src/app/api/analyze/route.ts:145 | At "._…." the match is replaced by one dot and the scan resumes after it. |
| Extraction.CanonicalAtChar | src/app/api/analyze/route.ts:145 | Elsewhere the character is kept and the scan moves on. |
| Extraction.CanonicalChangesOnlyTokens | src/app/api/analyze/route.ts:145 | A URL without a "._…." token is unchanged, and one with a token gets strictly shorter. |
| Extraction.CanonicalOfDotFreePrefix | src/app/api/analyze/route.ts:145 | A prefix without dots passes through unchanged. |
| Extraction.CanonicalOfOneDot | src/app/api/analyze/route.ts:145 | A name with one dot is unchanged. |
| Extraction.CanonicalOfToken | src/app/api/analyze/route.ts:145 | A leading "._t." becomes ".". |
| Extraction.CanonicalOfOneToken | src/app/api/analyze/route.ts:145 | "stem._SX300_.jpg" becomes "stem.jpg". |
| Extraction.CanonicalOfTwoTokens | src/app/api/analyze/route.ts:145 | Of two adjacent tokens, only the first is removed, because the matches share a dot. |
| Extraction.CanonicalNotIdempotent | src/app/api/analyze/route.ts:145 | So one pass can leave a token that a second pass removes. |
| Extraction.MainImageSource | src/app/api/analyze/route.ts:141-143 | No main-image element means no source. |
| Extraction.MainImageChoice | src/app/api/analyze/route.ts:141-143 | For the first main-image element: a present, non-empty `src` is the source. Otherwise the source is `data-old-hires`, absent when that attribute is absent. |
| Extraction.CollectImages | src/app/api/analyze/route.ts:155-170 | Collection only appends, and keeps a duplicate-free list duplicate-free. |
| Extraction.CollectSound | src/app/api/analyze/route.ts:160-168 | Every collected URL was already there or is the canonical form of a source containing "http". |
| Extraction.CollectComplete | src/app/api/analyze/route.ts:160-168 | Every source containing "http" ends up collected in canonical form. |
| Extraction.ImagesDuplicateFree | src/app/api/analyze/route.ts:137-187 | The collected URLs have no duplicates, and a usable main image comes first. |
| Extraction.ImagesSound | src/app/api/analyze/route.ts:140-187 | Every collected URL comes from the main image, a thumbnail other than the first, or a fallback image. |
| Extraction.ThumbnailsCollected | src/app/api/analyze/route.ts:155-170 | Every usable thumbnail after the first is collected, and replacing the first thumbnail changes nothing. |
| Extraction.FallbackOnlyWhenFewerThanTwo | src/app/api/analyze/route.ts:173-187 | With two or more URLs the fallback selector is ignored. Below two, each usable fallback image is collected. |
| Extraction.Truncation | src/app/api/analyze/route.ts:189-197 | The URLs returned are the first min(8, n) collected. The image count is n − 1, which exceeds the returned thumbnails when n > 8. Truncation keeps the list duplicate-free. |
| Extraction.CollectBullets | src/app/api/analyze/route.ts:235-242 | Collection only appends and keeps the list well formed: non-empty, warranty-free, no duplicates. |
| Extraction.AddBulletCases | src/app/api/analyze/route.ts:237-241 | An element either adds its trimmed text or adds nothing. A non-empty, warranty-free text that is not listed yet is added. |
| Extraction.CollectBulletsInOrder | src/app/api/analyze/route.ts:235-242 | The bullets are a subsequence of the elements' trimmed texts. |
| Extraction.CollectBulletsCovers | src/app/api/analyze/route.ts:235-242 | Every non-empty, warranty-free trimmed text is among the bullets. |
| Extraction.BulletsProperties | src/app/api/analyze/route.ts:227-247 | The bullets are well formed. They are empty iff every selector yields none, and otherwise come, in document order, from the first selector that yields any. |
| Extraction.DescriptionIsFirstMatch | src/app/api/analyze/route.ts:294-308 | The description is trimmed, empty iff every selector's join is blank, and otherwise the join of the first selector with a non-blank join. |
| Extraction.TrimmedBlank | src/app/api/analyze/route.ts:300 | A trimmed text is blank iff the text is. |
| Extraction.JoinAllSpace | src/app/api/analyze/route.ts:298-301 | The joined text is all whitespace iff every element's text is. |
| Extraction.JoinBlankIffAllBlank | src/app/api/analyze/route.ts:298-304 | A selector yields an empty description iff all its elements are blank, including when it matches nothing. |
| Extraction.JoinStep | src/app/api/analyze/route.ts:299-301 | Each element appends its trimmed text and one space. |
| Extraction.BlankElementLeavesDoubleSpace | src/app/api/analyze/route.ts:299-301 | A blank element adds a second space, which the final trim keeps when a later element is non-blank. |
| Extraction.ProductInvariants | src/app/api/analyze/route.ts:312-322 | Every record satisfies: title and description trimmed and chosen by the cascade; at most 8 distinct URLs, a prefix of those collected; image count = collected − 1; videoCount 1 iff hasVideo; bullets well formed; the URL kept. |
| Extractor.ExtractTitle | src/app/api/analyze/route.ts:126-134 | The loop's title is the first non-empty trimmed selector text. |
| Extractor.AddSource | src/app/api/analyze/route.ts:160-168 | One push-if-unseen step appends exactly as the reference collection does, and the seen set stays the set of listed URLs. |
| Extractor.CollectPageImages | src/app/api/analyze/route.ts:137-187 | The three collection stages produce the reference collected list. |
| Extractor.ExtractImages | src/app/api/analyze/route.ts:137-197 | Returns the truncated URL list and the untruncated thumbnail count. |
| Extractor.DetectVideo | src/app/api/analyze/route.ts:222-224 | hasVideo iff the lower-cased body text contains "video"; the count is 1 or 0 accordingly. |
| Extractor.PushKeptBullets | src/app/api/analyze/route.ts:235-242 | The `each` loop over one selector's elements is the reference collection. |
| Extractor.ExtractBullets | src/app/api/analyze/route.ts:227-247 | The loop with `break` returns the first non-empty selector's bullets. |
| Extractor.DetectEnhancedContent | src/app/api/analyze/route.ts:250-265 | True iff some listed selector matches an element. |
| Extractor.JoinElementTexts | src/app/api/analyze/route.ts:298-301 | The `text +=` loop is the reference join. |
| Extractor.DescriptionOf | src/app/api/analyze/route.ts:295-303 | One selector's trimmed join; empty when nothing matches. |
| Extractor.ExtractDescription | src/app/api/analyze/route.ts:267-308 | The loop returns the first non-empty trimmed join. |
| Extractor.Analyze | src/app/api/analyze/route.ts:113-322 | A failed response yields an error with its status and message "Failed to fetch Amazon page: " + statusText. Otherwise the reply is the extracted record. |
| Extractor.ExtractProduct | src/app/api/analyze/route.ts:123-322 | The record assembled from the extractors is the reference record. The copy in src/utils/amazonScraper.ts (lines 83-258) is the same code. |
| AmazonScraper.ScrapeAmazonProduct | src/utils/amazonScraper.ts:76-258 | A failed response throws "Failed to fetch Amazon page: " + statusText, modelled as a failure. Otherwise the result is the extracted record. |

## Left out

- Fetching: the network, the proxy list and its random choice, request headers, and reading the body as text. The fetched response is a parameter (`Document.Response`).
- HTML parsing and CSS selector matching (cheerio): a page is an abstract map from selector strings to matched elements, plus its body text.
- URL validation, the domain-to-language map, the JSON wrapping of replies, and the catch block that turns thrown errors into a 500 reply or rethrows them.
- The `videoSelectors` list in route.ts: it is declared and never read.
- The console logging, the status colours, and the React rendering of the results.
- Evaluation.EvaluateTitle: check 5 uses the intended repetition test (see Findings). On a title where "constructor" or "\_\_proto\_\_" occurs more than twice, the source passes check 5 and scores one more than the model (`Rubric.TitleScoreAsWritten`).
- Evaluation.EvaluateContent: inherits that deviation, so on such titles the source's total can be one higher than the model's, and its status can differ.
- Lengths count Unicode scalar values. JavaScript's `length` counts UTF-16 code units, so for characters outside the Basic Multilingual Plane the 200, 300–555 and 700 character limits apply to different counts.
- Text.Lower: lower-cases ASCII letters only. `toLowerCase` also folds non-ASCII letters, which the model does not capture.
- Evaluation.Percentage: computed exactly on rationals rather than in floating point. On the 18-point scale no total lands on a half, so the rounding agrees.
- Recommendation and label strings are structured values; `AdviceText`, `CheckText` and `CategoryText` render the exact text, and carry no contract.

## Findings

| source | as written | input that shows it | evidently intended | confidence | as-written member | corrected member |
|---|---|---|---|---|---|---|
| src/components/ContentEvaluation.tsx:181-186 | Word counts are kept in an object literal `{}`. The tokens "constructor" and "\_\_proto\_\_" start from `Object.prototype`'s values, so their counts become strings or are dropped, and never exceed 2. | the title "constructor constructor constructor" | any word appearing more than twice fails the repetition check | not executed | Rubric.RepeatedConstructorEscapes | Rubric.RepetitionIsCountAboveTwo |
