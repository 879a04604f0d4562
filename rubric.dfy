/** The editorial rubric applied by src/components/ContentEvaluation.tsx: its constants, the
    boolean checks of each category in the order the evaluators run them, and the score each
    category gets (the number of checks passed). */
module Rubric {
  import opened Text

  // ---------------------------------------------------------------- constants

  const TitleMaxLength := 200
  const TitlePromotionalWords: seq<string> :=
    ["best", "amazing", "top", "perfect", "incredible", "awesome", "excellent", "free",
     "discount", "sale", "offer", "limited", "new", "improved"]
  const TitleProhibitedSymbols: string := "!$?_{}^\U{00AC}\U{00A6}"
  const TitleMinorWords: seq<string> :=
    ["a", "an", "the", "in", "on", "at", "for", "with", "by", "to", "and", "or", "but"]
  const TitleMaxRepeats := 2
  /** The lower-case names that a fresh object literal `{}` already answers through
      `Object.prototype`. */
  const PrototypeNames: seq<string> := ["constructor", "__proto__"]

  const BulletTarget := 5
  const BulletMinLength := 300
  const BulletMaxLength := 555
  const BulletPromotionalTerms: seq<string> :=
    ["best", "amazing", "incredible", "perfect", "unbeatable", "revolutionary", "groundbreaking"]

  const DescriptionMaxLength := 700
  const DescriptionSymbols: string := "\U{2122}\U{00AE}\U{20AC}\U{2020}\U{00A9}"
  const BrandWord := "amazon"
  const Superlatives: seq<string> :=
    ["best", "greatest", "perfect", "ultimate", "excellent", "unforgettable"]

  const MinImages := 6
  const MinVideos := 1

  /** Number of checks (and maximum score) of Title, Bullet Points and Description. */
  const TextChecks := 5
  /** Number of checks (and maximum score) of Images & Videos & Enhanced Content. */
  const MediaChecks := 3
  const TextPassMark := 4
  const MediaPassMark := 2

  /** Number of `true` entries: a category's score is the number of its checks that passed. */
  function CountTrue(bs: seq<bool>): (n: nat)
    ensures n <= |bs|
    ensures n == |bs| <==> forall i | 0 <= i < |bs| :: bs[i]
    ensures n == 0 <==> forall i | 0 <= i < |bs| :: !bs[i]
  {
    if bs == [] then 0 else (if bs[0] then 1 else 0) + CountTrue(bs[1..])
  }

  /** `xs.filter(p).length`. */
  function CountWhere(xs: seq<string>, p: string -> bool): (n: nat)
    ensures n <= |xs|
  {
    if xs == [] then 0 else (if p(xs[0]) then 1 else 0) + CountWhere(xs[1..], p)
  }

  /** Every entry satisfies `p` exactly when all are counted, and none does exactly when none
      is counted. */
  lemma {:induction false} CountWhereExtremes(xs: seq<string>, p: string -> bool)
    ensures CountWhere(xs, p) == |xs| <==> forall i | 0 <= i < |xs| :: p(xs[i])
    ensures CountWhere(xs, p) == 0 <==> forall i | 0 <= i < |xs| :: !p(xs[i])
    decreases |xs|
  {
    if xs != [] {
      CountWhereExtremes(xs[1..], p);
      assert forall i | 1 <= i < |xs| :: xs[i] == xs[1..][i - 1];
    }
  }

  function Bit(b: bool): nat {
    if b then 1 else 0
  }

  lemma CountTrueOfFive(bs: seq<bool>)
    requires |bs| == 5
    ensures CountTrue(bs) == Bit(bs[0]) + Bit(bs[1]) + Bit(bs[2]) + Bit(bs[3]) + Bit(bs[4])
  {
    assert bs[1..][1..] == bs[2..] && bs[2..][1..] == bs[3..];
    assert bs[3..][1..] == bs[4..] && bs[4..][1..] == [];
    assert CountTrue(bs[4..]) == Bit(bs[4]);
    assert CountTrue(bs[3..]) == Bit(bs[3]) + CountTrue(bs[4..]);
    assert CountTrue(bs[2..]) == Bit(bs[2]) + CountTrue(bs[3..]);
    assert CountTrue(bs[1..]) == Bit(bs[1]) + CountTrue(bs[2..]);
  }

  // ---------------------------------------------------------------- 1. Title

  predicate TitleLengthValid(title: string) {
    0 < |title| <= TitleMaxLength
  }

  /** `/\b(best|amazing|...|improved)\b/i`. */
  predicate HasPromotionalPhrases(title: string) {
    HasAnyWholeWordIgnoreCase(title, TitlePromotionalWords)
  }

  /** `/[!$?_{}^¬¦]{2,}/`. */
  predicate HasProhibitedSymbolRun(title: string) {
    exists i | 0 <= i < |title| - 1 :: title[i] in TitleProhibitedSymbols && title[i + 1] in TitleProhibitedSymbols
  }

  /** The run test or'ed with the single-symbol test `/[!$?_{}^¬¦]/`. */
  predicate HasExcessivePunctuation(title: string) {
    HasProhibitedSymbolRun(title) || HasCharIn(title, TitleProhibitedSymbols)
  }

  /** `/^[A-Z]/` on the title and no minor word anywhere in the lower-cased title. */
  predicate HasProperCapitalization(title: string) {
    StartsWithUpper(title) && !HasAnyWholeWord(Lower(title), TitleMinorWords)
  }

  /** `title.toLowerCase().split(/\s+/)`. */
  function TitleWords(title: string): seq<string> {
    SplitOnSpace(Lower(title))
  }

  /** Some token occurs more than twice. */
  predicate HasExcessiveRepetition(title: string) {
    var words := TitleWords(title);
    exists i | 0 <= i < |words| :: multiset(words)[words[i]] > TitleMaxRepeats
  }

  /** The repetition test as the source computes it: the counts live in an object literal, and
      a token named like a property of `Object.prototype` starts from that property's value (a
      function or object), so its "count" becomes a string and never compares above 2. */
  predicate HasExcessiveRepetitionAsWritten(title: string) {
    var words := TitleWords(title);
    exists i | 0 <= i < |words| :: words[i] !in PrototypeNames && multiset(words)[words[i]] > TitleMaxRepeats
  }

  /** Outcomes of the five title checks, in order. */
  function TitleOutcomes(title: string): seq<bool> {
    [ TitleLengthValid(title),
      !HasPromotionalPhrases(title),
      !HasExcessivePunctuation(title),
      HasProperCapitalization(title),
      !HasExcessiveRepetition(title) ]
  }

  function TitleScore(title: string): nat {
    CountTrue(TitleOutcomes(title))
  }

  /** The five title outcomes as the source computes them, with the repetition test as written. */
  function TitleOutcomesAsWritten(title: string): seq<bool> {
    [ TitleLengthValid(title),
      !HasPromotionalPhrases(title),
      !HasExcessivePunctuation(title),
      HasProperCapitalization(title),
      !HasExcessiveRepetitionAsWritten(title) ]
  }

  // ---------------------------------------------------------------- 2. Bullet Points

  predicate HasValidLength(bullet: string) {
    BulletMinLength <= |bullet| <= BulletMaxLength
  }

  predicate EndsWithoutPeriod(bullet: string) {
    !EndsWith(Trim(bullet), ".")
  }

  predicate IsPromotional(bullet: string) {
    ContainsAny(Lower(bullet), BulletPromotionalTerms)
  }

  /** Outcomes of the five bullet-point checks, in order. */
  function BulletOutcomes(bullets: seq<string>): seq<bool> {
    [ |bullets| == BulletTarget,
      CountWhere(bullets, HasValidLength) == |bullets| && |bullets| > 0,
      CountWhere(bullets, StartsWithUpper) == |bullets| && |bullets| > 0,
      CountWhere(bullets, EndsWithoutPeriod) == |bullets| && |bullets| > 0,
      CountWhere(bullets, IsPromotional) == 0 ]
  }

  function BulletScore(bullets: seq<string>): nat {
    CountTrue(BulletOutcomes(bullets))
  }

  // ---------------------------------------------------------------- 3. Description

  /** Outcomes of the five description checks, in order. */
  function DescriptionOutcomes(description: string): seq<bool> {
    [ |description| > 0,
      |description| <= DescriptionMaxLength,
      !HasCharIn(description, DescriptionSymbols),
      !HasWholeWordIgnoreCase(description, BrandWord),
      !ContainsAny(Lower(description), Superlatives) ]
  }

  function DescriptionScore(description: string): nat {
    CountTrue(DescriptionOutcomes(description))
  }

  // ---------------------------------------------------------------- 4. Images & Videos & Enhanced Content

  /** Outcomes of the three media checks, in order. */
  function MediaOutcomes(imageCount: int, videoCount: int, hasEnhancedContent: bool): seq<bool> {
    [ imageCount >= MinImages, hasEnhancedContent, videoCount >= MinVideos ]
  }

  function MediaScore(imageCount: int, videoCount: int, hasEnhancedContent: bool): nat {
    CountTrue(MediaOutcomes(imageCount, videoCount, hasEnhancedContent))
  }

  // ---------------------------------------------------------------- properties

  /** Each category has a fixed number of checks and its score lies between 0 and that number. */
  lemma ScoresBounded(title: string, bullets: seq<string>, description: string,
                      imageCount: int, videoCount: int, hasEnhancedContent: bool)
    ensures |TitleOutcomes(title)| == TextChecks && TitleScore(title) <= TextChecks
    ensures |BulletOutcomes(bullets)| == TextChecks && BulletScore(bullets) <= TextChecks
    ensures |DescriptionOutcomes(description)| == TextChecks && DescriptionScore(description) <= TextChecks
    ensures |MediaOutcomes(imageCount, videoCount, hasEnhancedContent)| == MediaChecks
    ensures MediaScore(imageCount, videoCount, hasEnhancedContent) <= MediaChecks
  {
  }

  /** A single prohibited symbol already fails the "excessive punctuation" check: the run test
      adds nothing to the single-symbol test. */
  lemma ExcessivePunctuationIsAnySymbol(title: string)
    ensures HasExcessivePunctuation(title) <==> HasCharIn(title, TitleProhibitedSymbols)
    ensures (exists i | 0 <= i < |title| :: title[i] in TitleProhibitedSymbols) ==> !TitleOutcomes(title)[2]
  {
  }

  /** The capitalization check fails as soon as the title does not start with A-Z, or some minor
      word occurs as a whole word anywhere, whatever its case. */
  lemma CapitalizationFailures(title: string, k: int, i: int)
    requires !StartsWithUpper(title) || (0 <= k < |TitleMinorWords| && WholeWordAt(Lower(title), TitleMinorWords[k], i))
    ensures !TitleOutcomes(title)[3]
  {
  }

  /** Check 4 lower-cases the title before looking for minor words, so a minor word written in
      any case (a capitalized "For", say) fails it, however the title starts. */
  lemma CapitalizedMinorWordFails(title: string, k: int, i: int)
    requires 0 <= k < |TitleMinorWords|
    requires WholeWordAtIgnoreCase(title, TitleMinorWords[k], i)
    ensures !HasProperCapitalization(title) && !TitleOutcomes(title)[3]
  {
    var w := TitleMinorWords[k];
    assert HasWholeWordIgnoreCase(title, w);
    IgnoreCaseIsLowered(title, w);
    assert HasWholeWord(Lower(title), w);
  }

  /** An empty title fails the length and capitalization checks and passes the other three. */
  lemma EmptyTitle()
    ensures TitleOutcomes("") == [false, true, true, false, true]
    ensures TitleScore("") == 3 && TitleScore("") < TextPassMark
  {
    assert TitleWords("") == [""];
  }

  /** An empty bullet list passes only the promotional-language check, vacuously. */
  lemma EmptyBulletList()
    ensures BulletOutcomes([]) == [false, false, false, false, true]
    ensures BulletScore([]) == 1 && BulletScore([]) < TextPassMark
  {
  }

  /** An empty description fails only the presence check and still passes the category. */
  lemma EmptyDescription()
    ensures DescriptionOutcomes("") == [false, true, true, true, true]
    ensures DescriptionScore("") == 4 && DescriptionScore("") >= TextPassMark
  {
  }

  lemma LowerAppend(s: string, c: char)
    ensures Lower(s + [c]) == Lower(s) + [LowerChar(c)]
  {
  }

  /** At 700 characters the length check passes; one more non-word, non-symbol character fails
      that check and leaves every other description check as it was. */
  lemma DescriptionLengthLimit(description: string, c: char)
    requires |description| == DescriptionMaxLength
    requires !IsWordChar(c) && c !in DescriptionSymbols
    ensures DescriptionOutcomes(description)[1]
    ensures DescriptionOutcomes(description + [c]) == DescriptionOutcomes(description)[1 := false]
    ensures DescriptionScore(description) == TextChecks ==> DescriptionScore(description + [c]) == TextChecks - 1
  {
    var d' := description + [c];
    SymbolsAppend(description, c);
    BrandAppend(description, c);
    SuperlativesAppend(description, c);
    assert DescriptionOutcomes(d') == DescriptionOutcomes(description)[1 := false];
    CountTrueOfFive(DescriptionOutcomes(description));
    CountTrueOfFive(DescriptionOutcomes(d'));
  }

  lemma SymbolsAppend(description: string, c: char)
    requires c !in DescriptionSymbols
    ensures HasCharIn(description + [c], DescriptionSymbols) <==> HasCharIn(description, DescriptionSymbols)
  {
    var d' := description + [c];
    if HasCharIn(d', DescriptionSymbols) {
      var i :| 0 <= i < |d'| && d'[i] in DescriptionSymbols;
      assert i < |description| && description[i] == d'[i];
    }
    if HasCharIn(description, DescriptionSymbols) {
      var i :| 0 <= i < |description| && description[i] in DescriptionSymbols;
      assert d'[i] == description[i];
    }
  }

  lemma BrandAppend(description: string, c: char)
    requires !IsWordChar(c)
    ensures HasWholeWordIgnoreCase(description + [c], BrandWord) <==> HasWholeWordIgnoreCase(description, BrandWord)
  {
    assert forall k | 0 <= k < |BrandWord| :: IsWordChar(BrandWord[k]);
    WholeWordIgnoreCaseAppend(description, BrandWord, c);
  }

  lemma SuperlativesAppend(description: string, c: char)
    requires !IsWordChar(c)
    ensures ContainsAny(Lower(description + [c]), Superlatives) <==> ContainsAny(Lower(description), Superlatives)
  {
    LowerAppend(description, c);
    assert LowerChar(c) == c;
    forall k | 0 <= k < |Superlatives|
      ensures Contains(Lower(description) + [c], Superlatives[k]) <==> Contains(Lower(description), Superlatives[k])
    {
      assert forall j | 0 <= j < |Superlatives[k]| :: IsWordChar(Superlatives[k][j]);
      ContainsAppend(Lower(description), Superlatives[k], c);
    }
  }

  /** Seven images with enhanced content and no video: the media category passes with 2 of 3. */
  lemma MediaWithoutVideo()
    ensures MediaOutcomes(7, 0, true) == [true, true, false]
    ensures MediaScore(7, 0, true) == 2 && MediaScore(7, 0, true) >= MediaPassMark
  {
  }

  /** The two repetition tests differ only on tokens named like `Object.prototype` properties. */
  lemma RepetitionAgreesOffPrototypeNames(title: string)
    requires forall i | 0 <= i < |TitleWords(title)| :: TitleWords(title)[i] !in PrototypeNames
    ensures HasExcessiveRepetitionAsWritten(title) == HasExcessiveRepetition(title)
  {
  }

  /** The intended repetition test flags a title exactly when some lower-cased token occurs more
      than twice, and then the title fails check 5. */
  lemma RepetitionIsCountAboveTwo(title: string)
    ensures HasExcessiveRepetition(title) <==>
              exists w | w in multiset(TitleWords(title)) :: multiset(TitleWords(title))[w] > TitleMaxRepeats
    ensures HasExcessiveRepetition(title) <==> !TitleOutcomes(title)[4]
  {
    var words := TitleWords(title);
    if exists w | w in multiset(words) :: multiset(words)[w] > TitleMaxRepeats {
      var w :| w in multiset(words) && multiset(words)[w] > TitleMaxRepeats;
      var i :| 0 <= i < |words| && words[i] == w;
      assert multiset(words)[words[i]] > TitleMaxRepeats;
    }
  }

  /** The title outcomes as written differ from the model's only in check 5, and only on titles
      where a prototype name is repeated: there the source's score is one higher. */
  lemma TitleScoreAsWritten(title: string)
    ensures HasExcessiveRepetitionAsWritten(title) ==> HasExcessiveRepetition(title)
    ensures TitleOutcomesAsWritten(title) == TitleOutcomes(title)[4 := !HasExcessiveRepetitionAsWritten(title)]
    ensures CountTrue(TitleOutcomesAsWritten(title)) ==
              TitleScore(title) + (if HasExcessiveRepetition(title) && !HasExcessiveRepetitionAsWritten(title) then 1 else 0)
  {
    var model, written := TitleOutcomes(title), TitleOutcomesAsWritten(title);
    if HasExcessiveRepetitionAsWritten(title) {
      var words := TitleWords(title);
      var i :| 0 <= i < |words| && words[i] !in PrototypeNames && multiset(words)[words[i]] > TitleMaxRepeats;
      assert multiset(words)[words[i]] > TitleMaxRepeats;
    }
    assert written == model[4 := !HasExcessiveRepetitionAsWritten(title)];
    CountTrueOfFive(model);
    CountTrueOfFive(written);
  }

  // ---------------------------------------------------------------- a worked title

  /** A title with one promotional word and nothing else wrong. */
  const HeadphonesTitle := "Best Wireless Headphones"
  const HeadphonesLowered := "best wireless headphones"

  lemma HeadphonesLowerCase()
    ensures Lower(HeadphonesTitle) == HeadphonesLowered
  {
  }

  lemma HeadphonesSpaces()
    ensures forall j | 0 <= j < |HeadphonesLowered| :: !IsWordChar(HeadphonesLowered[j]) ==> j == 4 || j == 13
  {
  }

  /** The only whole words of the lower-cased title are its three words. */
  lemma HeadphonesWholeWords(w: string, i: int)
    requires |w| > 0 && forall t | 0 <= t < |w| :: IsWordChar(w[t])
    requires WholeWordAt(HeadphonesLowered, w, i)
    ensures w == "best" || w == "wireless" || w == "headphones"
  {
    var s := HeadphonesLowered;
    assert s[i] == w[0];
    assert !WordCharBefore(s, i);
    HeadphonesSpaces();
    assert i == 0 || i - 1 == 4 || i - 1 == 13;
    if i == 0 {
      WholeWordIsRun(s, w, 0, 4);
    } else if i == 5 {
      WholeWordIsRun(s, w, 5, 13);
    } else {
      WholeWordIsRun(s, w, 14, 24);
    }
  }

  lemma MinorWordsAreWords()
    ensures forall k | 0 <= k < |TitleMinorWords| ::
      && |TitleMinorWords[k]| > 0
      && (forall t | 0 <= t < |TitleMinorWords[k]| :: IsWordChar(TitleMinorWords[k][t]))
      && TitleMinorWords[k] != "best" && TitleMinorWords[k] != "wireless" && TitleMinorWords[k] != "headphones"
  {
  }

  lemma HeadphonesNoMinorWord()
    ensures !HasAnyWholeWord(HeadphonesLowered, TitleMinorWords)
  {
    forall k | 0 <= k < |TitleMinorWords|
      ensures !HasWholeWord(HeadphonesLowered, TitleMinorWords[k])
    {
      var w := TitleMinorWords[k];
      if HasWholeWord(HeadphonesLowered, w) {
        var i :| 0 <= i <= |HeadphonesLowered| - |w| && WholeWordAt(HeadphonesLowered, w, i);
        MinorWordsAreWords();
        HeadphonesWholeWords(w, i);
      }
    }
  }

  lemma HeadphonesPromotional()
    ensures HasPromotionalPhrases(HeadphonesTitle)
  {
    assert HeadphonesTitle[0..4] == "Best";
    assert Lower("Best") == "best";
    assert WholeWordAtIgnoreCase(HeadphonesTitle, TitlePromotionalWords[0], 0);
  }

  lemma HeadphonesNoSymbol()
    ensures !HasExcessivePunctuation(HeadphonesTitle)
  {
    assert forall i | 0 <= i < |HeadphonesTitle| ::
      ('a' <= HeadphonesTitle[i] <= 'z') || ('A' <= HeadphonesTitle[i] <= 'Z') || HeadphonesTitle[i] == ' ';
    assert forall j | 0 <= j < |TitleProhibitedSymbols| ::
      !('a' <= TitleProhibitedSymbols[j] <= 'z') && !('A' <= TitleProhibitedSymbols[j] <= 'Z') && TitleProhibitedSymbols[j] != ' ';
    ExcessivePunctuationIsAnySymbol(HeadphonesTitle);
  }

  lemma HeadphonesWords()
    ensures TitleWords(HeadphonesTitle) == ["best", "wireless", "headphones"]
  {
    var best, wireless, headphones := "best", "wireless", "headphones";
    assert HeadphonesLowered == best + " " + (wireless + " " + headphones) by {
      assert HeadphonesLowered[..4] == best && HeadphonesLowered[4] == ' ';
      assert HeadphonesLowered[5..13] == wireless && HeadphonesLowered[13] == ' ';
      assert HeadphonesLowered[14..] == headphones;
    }
    SplitThreeWords(best, wireless, headphones);
    HeadphonesLowerCase();
    assert TitleWords(HeadphonesTitle) == SplitOnSpace(HeadphonesLowered);
  }

  /** "Best Wireless Headphones" fails only the promotional-phrase check, scores 4 and passes:
      a superlative alone does not fail the title category. */
  lemma PromotionalTitlePasses(title: string)
    requires title == HeadphonesTitle
    ensures TitleOutcomes(title) == [true, false, true, true, true]
    ensures TitleScore(title) == 4 && TitleScore(title) >= TextPassMark
  {
    HeadphonesPromotional();
    HeadphonesNoSymbol();
    HeadphonesLowerCase();
    HeadphonesNoMinorWord();
    assert HasProperCapitalization(title);
    HeadphonesWords();
    assert !HasExcessiveRepetition(title);
    CountTrueOfFive(TitleOutcomes(title));
  }

  lemma LowerOfLowerCase(s: string)
    requires forall i | 0 <= i < |s| :: !('A' <= s[i] <= 'Z')
    ensures Lower(s) == s
  {
  }

  /** A word followed by one space splits off as the first piece. */
  lemma SplitOnSpaceWord(w: string, rest: string)
    requires forall i | 0 <= i < |w| :: !IsSpace(w[i])
    requires rest == [] || !IsSpace(rest[0])
    ensures SplitOnSpace(w + " " + rest) == [w] + SplitOnSpace(rest)
  {
    var s := w + " " + rest;
    assert NonSpacePrefix(s) == |w| by {
      assert !IsSpace(s[|w|]) ==> false;
    }
    assert s[|w|..] == " " + rest;
    assert SpacePrefix(" " + rest) == 1;
    assert (" " + rest)[1..] == rest;
    assert s[..|w|] == w;
  }

  lemma SplitOneWord(w: string)
    requires forall i | 0 <= i < |w| :: !IsSpace(w[i])
    ensures SplitOnSpace(w) == [w]
  {
    assert NonSpacePrefix(w) == |w|;
  }

  /** Three words separated by single spaces split into exactly those words. */
  lemma SplitThreeWords(a: string, b: string, c: string)
    requires forall i | 0 <= i < |a| :: !IsSpace(a[i])
    requires |b| > 0 && forall i | 0 <= i < |b| :: !IsSpace(b[i])
    requires |c| > 0 && forall i | 0 <= i < |c| :: !IsSpace(c[i])
    ensures SplitOnSpace(a + " " + (b + " " + c)) == [a, b, c]
  {
    SplitOneWord(c);
    SplitOnSpaceWord(b, c);
    var two := b + " " + c;
    assert two[0] == b[0];
    SplitOnSpaceWord(a, two);
  }

  /** Three repetitions of "constructor" escape the repetition check as written. */
  lemma RepeatedConstructorEscapes(title: string)
    requires title == PrototypeNames[0] + " " + (PrototypeNames[0] + " " + PrototypeNames[0])
    ensures !HasExcessiveRepetitionAsWritten(title)
    ensures HasExcessiveRepetition(title)
  {
    var w := PrototypeNames[0];
    assert forall i | 0 <= i < |w| :: 'a' <= w[i] <= 'z';
    LowerOfLowerCase(title);
    SplitThreeWords(w, w, w);
    var words := TitleWords(title);
    assert words == [w, w, w];
    assert multiset(words)[w] == 3;
  }

}
