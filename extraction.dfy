/** What the locator-cascade extractor computes from a page, stated as functions of the page:
    the selector lists in their order of preference, the first-match-wins rule, the image
    collection with its seen-set, truncation and count, the bullet filters and the description
    join. The imperative extractors in modules Extractor and AmazonScraper are proved equal to
    `Product`. */
module Extraction {
  import opened Wrappers
  import opened Text
  import opened Document
  import opened Content

  // ---------------------------------------------------------------- selectors and constants

  const TitleSelectors: seq<string> :=
    ["#productTitle", ".product-title-word-break", ".a-size-large.product-title-word-break"]

  const MainImageSelector := "#landingImage, #imgBlkFront, #main-image"
  const ThumbnailSelector := "#altImages li:not(.videoThumbnail):not(.videoBlockIngress) img"
  const FallbackImageSelector := ".imgTagWrapper img"
  /** An image source is used only if it contains this. */
  const UrlMarker := "http"
  /** The fallback image selector is consulted only while fewer images than this were found. */
  const FallbackThreshold := 2
  /** At most this many image URLs are returned. */
  const MaxImageUrls := 8

  const VideoWord := "video"

  const BulletSelectors: seq<string> :=
    ["#feature-bullets ul li", ".a-unordered-list .a-list-item", "#bulletPointsSection li"]
  /** A bullet whose lower-cased text contains this is dropped. */
  const ExcludedBulletWord := "warranty"

  const EnhancedContentSelectors: seq<string> :=
    ["#aplus", "#dpx-aplus-product-description_feature_div", "#aplus3p_feature_div",
     ".aplus-v2", "#aplus-3p-content", ".a-plus-widget"]

  const DescriptionSelectors: seq<string> :=
    ["#productDescription", "#productDescription p", ".a-expander-content p",
     "#productDescription_feature_div", "#aplus p", "#aplus-3p-content p", ".aplus-v2 p",
     "#feature-bullets", ".a-section.a-spacing-medium p", ".product-description-text",
     "#detailBullets_feature_div", ".a-section.a-spacing-medium.a-spacing-top-small"]

  // ---------------------------------------------------------------- first match wins

  /** Position of the first non-empty candidate, or |xs| when all are empty. */
  function FirstNonEmptyIndex<T>(xs: seq<seq<T>>): (k: nat)
    ensures k <= |xs|
    ensures forall j | 0 <= j < k :: xs[j] == []
    ensures k < |xs| ==> xs[k] != []
  {
    if xs == [] then 0
    else if xs[0] != [] then 0
    else 1 + FirstNonEmptyIndex(xs[1..])
  }

  /** The first non-empty candidate, or empty when there is none. */
  function FirstNonEmpty<T>(xs: seq<seq<T>>): (r: seq<T>)
    ensures r == [] <==> forall i | 0 <= i < |xs| :: xs[i] == []
  {
    var k := FirstNonEmptyIndex(xs);
    if k < |xs| then xs[k] else []
  }

  /** A non-empty candidate preceded only by empty ones is the one chosen. */
  lemma FirstNonEmptyAt<T>(xs: seq<seq<T>>, k: int)
    requires 0 <= k < |xs| && xs[k] != []
    requires forall j | 0 <= j < k :: xs[j] == []
    ensures FirstNonEmpty(xs) == xs[k]
  {
    var m := FirstNonEmptyIndex(xs);
  }

  /** With every candidate empty, nothing is chosen. */
  lemma FirstNonEmptyNone<T>(xs: seq<seq<T>>)
    requires forall j | 0 <= j < |xs| :: xs[j] == []
    ensures FirstNonEmpty(xs) == []
  {
  }

  // ---------------------------------------------------------------- title

  /** `$(selector).text().trim()`. */
  function TitleCandidate(page: Page, selector: string): string {
    Trim(TextOf(Select(page, selector)))
  }

  /** The candidate of each selector, in order. */
  function TitleCandidates(page: Page, selectors: seq<string>): (cs: seq<string>)
    ensures |cs| == |selectors|
    ensures forall i | 0 <= i < |selectors| :: cs[i] == TitleCandidate(page, selectors[i])
  {
    seq(|selectors|, i requires 0 <= i < |selectors| => TitleCandidate(page, selectors[i]))
  }

  function Title(page: Page): string {
    FirstNonEmpty(TitleCandidates(page, TitleSelectors))
  }

  /** The title is the trimmed text of the first selector, in list order, whose trimmed text
      is non-empty, and empty when there is none. */
  lemma TitleIsFirstMatch(page: Page, selectors: seq<string>)
    ensures var title := FirstNonEmpty(TitleCandidates(page, selectors));
      && IsTrimmed(title)
      && (title == "" <==> forall i | 0 <= i < |selectors| :: TitleCandidate(page, selectors[i]) == "")
      && (title != "" ==>
            exists k | 0 <= k < |selectors| ::
              && title == TitleCandidate(page, selectors[k])
              && forall j | 0 <= j < k :: TitleCandidate(page, selectors[j]) == "")
  {
    var cs := TitleCandidates(page, selectors);
    assert IsTrimmed([]);
  }

  // ---------------------------------------------------------------- URL canonicalisation

  /** Index of the first '.' of `s` at or after `i`, or |s| when there is none. */
  function FirstDotFrom(s: string, i: nat): (j: nat)
    requires i <= |s|
    ensures i <= j <= |s|
    ensures j < |s| ==> s[j] == '.'
    ensures forall k | i <= k < j :: s[k] != '.'
    decreases |s| - i
  {
    if i == |s| || s[i] == '.' then i else FirstDotFrom(s, i + 1)
  }

  /** `/\._[^\.]*\./` matches at index 0: a dot, an underscore, then the nearest dot after them. */
  predicate TokenAtStart(s: string) {
    |s| >= 2 && s[0] == '.' && s[1] == '_' && FirstDotFrom(s, 2) < |s|
  }

  /** Somewhere `._` is followed, later, by a dot: the pattern matches somewhere. */
  predicate HasToken(s: string) {
    exists i, j | 0 <= i && i + 2 <= j < |s| :: s[i] == '.' && s[i + 1] == '_' && s[j] == '.'
  }

  /** `s.replace(/\._[^\.]*\./g, '.')`: scanning left to right, each match is replaced by a
      single dot and the scan resumes after the match. */
  function Canonical(s: string): (r: string)
    ensures |r| <= |s|
    decreases |s|
  {
    if TokenAtStart(s) then "." + Canonical(s[FirstDotFrom(s, 2) + 1..])
    else if s == [] then []
    else [s[0]] + Canonical(s[1..])
  }

  lemma CanonicalAtToken(s: string)
    requires TokenAtStart(s)
    ensures Canonical(s) == "." + Canonical(s[FirstDotFrom(s, 2) + 1..])
  {
  }

  lemma CanonicalAtChar(s: string)
    requires s != [] && !TokenAtStart(s)
    ensures Canonical(s) == [s[0]] + Canonical(s[1..])
  {
  }

  /** A match in the tail is a match in the whole string. */
  lemma TokenInTail(s: string)
    requires s != []
    ensures HasToken(s[1..]) ==> HasToken(s)
  {
    if HasToken(s[1..]) {
      var t := s[1..];
      var i, j :| 0 <= i && i + 2 <= j < |t| && t[i] == '.' && t[i + 1] == '_' && t[j] == '.';
      assert s[i + 1] == '.' && s[i + 2] == '_' && s[j + 1] == '.';
    }
  }

  /** When no match starts at index 0, every match lies in the tail. */
  lemma TokenNotAtStart(s: string)
    requires s != [] && !TokenAtStart(s)
    ensures HasToken(s) ==> HasToken(s[1..])
  {
    if |s| >= 2 && s[0] == '.' && s[1] == '_' {
      assert FirstDotFrom(s, 2) == |s|;
    }
    if HasToken(s) {
      var i, j :| 0 <= i && i + 2 <= j < |s| && s[i] == '.' && s[i + 1] == '_' && s[j] == '.';
      var t := s[1..];
      assert t[i - 1] == '.' && t[i] == '_' && t[j - 1] == '.';
    }
  }

  /** The replacement changes a URL exactly when the pattern occurs in it, and then shortens it. */
  lemma {:induction false} CanonicalChangesOnlyTokens(s: string)
    ensures HasToken(s) ==> |Canonical(s)| < |s|
    ensures !HasToken(s) ==> Canonical(s) == s
    decreases |s|
  {
    if TokenAtStart(s) {
      var j := FirstDotFrom(s, 2);
      assert HasToken(s) by { assert s[0] == '.' && s[1] == '_' && s[j] == '.'; }
    } else if s != [] {
      var t := s[1..];
      CanonicalChangesOnlyTokens(t);
      CanonicalAtChar(s);
      TokenInTail(s);
      TokenNotAtStart(s);
      assert s == [s[0]] + t;
    }
  }

  /** No character of `s` is a dot. */
  predicate NoDot(s: string) {
    forall k | 0 <= k < |s| :: s[k] != '.'
  }

  /** A dot-free prefix is copied unchanged. */
  lemma {:induction false} CanonicalOfDotFreePrefix(p: string, s: string)
    requires NoDot(p)
    ensures Canonical(p + s) == p + Canonical(s)
    decreases |p|
  {
    if p != [] {
      var ps := p + s;
      assert ps[0] == p[0] && ps[1..] == p[1..] + s;
      CanonicalAtChar(ps);
      CanonicalOfDotFreePrefix(p[1..], s);
      calc {
        Canonical(ps);
        [p[0]] + Canonical(p[1..] + s);
        [p[0]] + (p[1..] + Canonical(s));
        { assert [p[0]] + p[1..] == p; }
        p + Canonical(s);
      }
    } else {
      assert p + s == s;
    }
  }

  /** A string with a single dot holds no match and is left as it is. */
  lemma CanonicalOfOneDot(p: string, q: string)
    requires NoDot(p) && NoDot(q)
    ensures Canonical(p + "." + q) == p + "." + q
  {
    var s := p + "." + q;
    assert forall k | 0 <= k < |s| && s[k] == '.' :: k == |p|;
    assert !HasToken(s);
    CanonicalChangesOnlyTokens(s);
  }

  /** A match `._t.` at the front becomes one dot and the scan resumes after it. */
  lemma CanonicalOfToken(t: string, rest: string)
    requires NoDot(t)
    ensures Canonical("._" + t + "." + rest) == "." + Canonical(rest)
  {
    var s := "._" + t + "." + rest;
    var j := FirstDotFrom(s, 2);
    assert s[2 + |t|] == '.';
    assert j == 2 + |t|;
    assert s[j + 1..] == rest;
    CanonicalAtToken(s);
  }

  lemma SplitOneToken(stem: string, y: string, ext: string)
    ensures stem + "._" + y + "." + ext == stem + ("._" + y + "." + ext)
    ensures stem + "." + ext == stem + ("." + ext)
  {
  }

  /** A URL with one match loses it: `stem._y.ext` becomes `stem.ext`. */
  lemma CanonicalOfOneToken(stem: string, y: string, ext: string)
    requires NoDot(stem) && NoDot(y) && NoDot(ext)
    ensures Canonical(stem + "._" + y + "." + ext) == stem + "." + ext
  {
    SplitOneToken(stem, y, ext);
    CanonicalOfDotFreePrefix(stem, "._" + y + "." + ext);
    CanonicalOfToken(y, ext);
    CanonicalOfOneDot([], ext);
    assert [] + "." + ext == "." + ext;
  }

  lemma SplitTwoTokens(stem: string, x: string, y: string, ext: string)
    ensures stem + "._" + x + "._" + y + "." + ext == stem + ("._" + x + "." + ("_" + y + "." + ext))
    ensures stem + ("." + ("_" + y + "." + ext)) == stem + "._" + y + "." + ext
    ensures "_" + y + "." + ext == ("_" + y) + "." + ext
  {
  }

  lemma UnderscoreNoDot(y: string)
    requires NoDot(y)
    ensures NoDot("_" + y)
  {
    var uy := "_" + y;
    assert forall k | 1 <= k < |uy| :: uy[k] == y[k - 1];
  }

  /** Two adjacent matches: the first match consumes the dot that opens the second, so only the
      first is removed, `stem._x._y.ext` becoming `stem._y.ext`. */
  lemma CanonicalOfTwoTokens(stem: string, x: string, y: string, ext: string)
    requires NoDot(stem) && NoDot(x) && NoDot(y) && NoDot(ext)
    ensures Canonical(stem + "._" + x + "._" + y + "." + ext) == stem + "._" + y + "." + ext
  {
    SplitTwoTokens(stem, x, y, ext);
    var tail := "_" + y + "." + ext;
    CanonicalOfDotFreePrefix(stem, "._" + x + "." + tail);
    CanonicalOfToken(x, tail);
    UnderscoreNoDot(y);
    CanonicalOfOneDot("_" + y, ext);
  }

  /** The replacement is not idempotent: removing one match can expose another. */
  lemma CanonicalNotIdempotent(stem: string, x: string, y: string, ext: string)
    requires NoDot(stem) && NoDot(x) && NoDot(y) && NoDot(ext)
    ensures var once := Canonical(stem + "._" + x + "._" + y + "." + ext);
      && once == stem + "._" + y + "." + ext
      && Canonical(once) == stem + "." + ext
      && Canonical(once) != once
  {
    CanonicalOfTwoTokens(stem, x, y, ext);
    CanonicalOfOneToken(stem, y, ext);
    assert |stem + "._" + y + "." + ext| > |stem + "." + ext|;
  }

  // ---------------------------------------------------------------- images

  predicate NoDuplicates<T(==)>(s: seq<T>) {
    forall i, j | 0 <= i < j < |s| :: s[i] != s[j]
  }

  /** `src && src.includes('http')`. */
  predicate IsImageUrl(src: Option<string>) {
    src.Some? && Contains(src.value, UrlMarker)
  }

  /** `attr('src') || attr('data-old-hires')` of the first element matching the combined main
      image selector: an absent or empty `src` falls back to `data-old-hires`. */
  function MainImageSource(page: Page): (src: Option<string>)
    ensures Select(page, MainImageSelector) == [] ==> src == None
  {
    var es := Select(page, MainImageSelector);
    if es == [] then None
    else
      var src := Attr(es[0], "src");
      if src.Some? && src.value != "" then src else Attr(es[0], "data-old-hires")
  }

  /** Which attribute of the first main-image element supplies the source: a non-empty `src`
      wins, and otherwise `data-old-hires` is taken as it is (absent stays absent). */
  lemma MainImageChoice(page: Page)
    ensures var es := Select(page, MainImageSelector);
      es != [] ==>
        if "src" in es[0].attrs && es[0].attrs["src"] != "" then
          MainImageSource(page) == Some(es[0].attrs["src"])
        else
          && (MainImageSource(page).Some? <==> "data-old-hires" in es[0].attrs)
          && (MainImageSource(page).Some? ==> MainImageSource(page).value == es[0].attrs["data-old-hires"])
  {
  }

  /** One step of the collection loop: a usable source whose canonical form is not yet
      collected is appended. */
  function AddImage(urls: seq<string>, src: Option<string>): seq<string> {
    if IsImageUrl(src) && Canonical(src.value) !in urls then urls + [Canonical(src.value)] else urls
  }

  /** The collection loop over `srcs`, starting from `urls`. */
  function CollectImages(urls: seq<string>, srcs: seq<Option<string>>): (r: seq<string>)
    ensures urls <= r
    ensures NoDuplicates(urls) ==> NoDuplicates(r)
    decreases |srcs|
  {
    if srcs == [] then urls else AddImage(CollectImages(urls, srcs[..|srcs| - 1]), srcs[|srcs| - 1])
  }

  /** The `src` attribute of every element. */
  function SourcesOf(es: seq<Element>): (srcs: seq<Option<string>>)
    ensures |srcs| == |es|
    ensures forall i | 0 <= i < |es| :: srcs[i] == Attr(es[i], "src")
  {
    seq(|es|, i requires 0 <= i < |es| => Attr(es[i], "src"))
  }

  /** Thumbnail sources: the element at position 0 is skipped whatever it holds. */
  function ThumbnailSources(page: Page): seq<Option<string>> {
    var es := Select(page, ThumbnailSelector);
    if es == [] then [] else SourcesOf(es[1..])
  }

  function FallbackSources(page: Page): seq<Option<string>> {
    SourcesOf(Select(page, FallbackImageSelector))
  }

  /** The list after the main image and the thumbnails. */
  function ThumbnailStage(page: Page): seq<string> {
    CollectImages(AddImage([], MainImageSource(page)), ThumbnailSources(page))
  }

  /** The untruncated list of image URLs: the fallback selector is added only when the main
      image and the thumbnails gave fewer than two. */
  function CollectedImages(page: Page): seq<string> {
    var urls := ThumbnailStage(page);
    if |urls| < FallbackThreshold then CollectImages(urls, FallbackSources(page)) else urls
  }

  function Min(a: int, b: int): int {
    if a <= b then a else b
  }

  /** `imageUrls.slice(0, 8)`. */
  function ImageUrls(collected: seq<string>): seq<string> {
    collected[..Min(MaxImageUrls, |collected|)]
  }

  /** `imageUrls.slice(1).length`, on the untruncated list. */
  function ThumbnailCount(collected: seq<string>): int {
    if collected == [] then 0 else |collected| - 1
  }

  /** A collected URL was already in the starting list, or is the canonical form of one of the
      usable sources. */
  lemma {:induction false} CollectSound(urls: seq<string>, srcs: seq<Option<string>>, u: string)
    requires u in CollectImages(urls, srcs)
    ensures u in urls || exists k | 0 <= k < |srcs| :: IsImageUrl(srcs[k]) && u == Canonical(srcs[k].value)
    decreases |srcs|
  {
    if srcs != [] {
      var init := srcs[..|srcs| - 1];
      var prev := CollectImages(urls, init);
      var last := |srcs| - 1;
      if u in prev {
        CollectSound(urls, init, u);
        if u !in urls {
          var k :| 0 <= k < |init| && IsImageUrl(init[k]) && u == Canonical(init[k].value);
          assert srcs[k] == init[k];
        }
      } else {
        assert IsImageUrl(srcs[last]) && u == Canonical(srcs[last].value);
      }
    }
  }

  /** Every usable source has its canonical form in the collected list. */
  lemma {:induction false} CollectComplete(urls: seq<string>, srcs: seq<Option<string>>, k: int)
    requires 0 <= k < |srcs| && IsImageUrl(srcs[k])
    ensures Canonical(srcs[k].value) in CollectImages(urls, srcs)
    decreases |srcs|
  {
    var init := srcs[..|srcs| - 1];
    var prev := CollectImages(urls, init);
    if k < |srcs| - 1 {
      assert init[k] == srcs[k];
      CollectComplete(urls, init, k);
    }
    assert prev <= CollectImages(urls, srcs);
  }

  /** The collected list never holds the same URL twice, and starts with the main image when
      that one is usable. */
  lemma ImagesDuplicateFree(page: Page)
    ensures NoDuplicates(CollectedImages(page))
    ensures IsImageUrl(MainImageSource(page)) ==>
              |CollectedImages(page)| > 0 && CollectedImages(page)[0] == Canonical(MainImageSource(page).value)
  {
    var first := AddImage([], MainImageSource(page));
    var urls := ThumbnailStage(page);
    assert first <= urls;
    if |urls| < FallbackThreshold {
      assert urls <= CollectImages(urls, FallbackSources(page));
    }
  }

  /** Every collected URL is the canonical form of the main image, of a thumbnail other than
      the first, or of a fallback image, and in each case its source contains "http". */
  lemma ImagesSound(page: Page, u: string)
    requires u in CollectedImages(page)
    ensures || (IsImageUrl(MainImageSource(page)) && u == Canonical(MainImageSource(page).value))
            || (exists k | 1 <= k < |Select(page, ThumbnailSelector)| ::
                  IsImageUrl(Attr(Select(page, ThumbnailSelector)[k], "src")) &&
                  u == Canonical(Attr(Select(page, ThumbnailSelector)[k], "src").value))
            || (exists k | 0 <= k < |Select(page, FallbackImageSelector)| ::
                  IsImageUrl(Attr(Select(page, FallbackImageSelector)[k], "src")) &&
                  u == Canonical(Attr(Select(page, FallbackImageSelector)[k], "src").value))
  {
    var first := AddImage([], MainImageSource(page));
    var thumbs := ThumbnailSources(page);
    var urls := ThumbnailStage(page);
    var es := Select(page, ThumbnailSelector);
    if u in urls {
      CollectSound(first, thumbs, u);
      if u !in first {
        var k :| 0 <= k < |thumbs| && IsImageUrl(thumbs[k]) && u == Canonical(thumbs[k].value);
        assert thumbs[k] == Attr(es[k + 1], "src");
      }
    } else {
      CollectSound(urls, FallbackSources(page), u);
    }
  }

  /** Every thumbnail after the first with a usable source is collected; the first thumbnail
      is never consulted, so replacing it changes nothing. */
  lemma ThumbnailsCollected(page: Page, k: int, e: Element)
    requires 1 <= k < |Select(page, ThumbnailSelector)|
    requires IsImageUrl(Attr(Select(page, ThumbnailSelector)[k], "src"))
    ensures Canonical(Attr(Select(page, ThumbnailSelector)[k], "src").value) in CollectedImages(page)
    ensures CollectedImages(WithMatches(page, ThumbnailSelector, [e] + Select(page, ThumbnailSelector)[1..]))
            == CollectedImages(page)
  {
    var es := Select(page, ThumbnailSelector);
    var thumbs := ThumbnailSources(page);
    assert thumbs[k - 1] == Attr(es[k], "src");
    var first := AddImage([], MainImageSource(page));
    CollectComplete(first, thumbs, k - 1);
    var urls := ThumbnailStage(page);
    if |urls| < FallbackThreshold {
      assert urls <= CollectImages(urls, FallbackSources(page));
    }
    var page' := WithMatches(page, ThumbnailSelector, [e] + es[1..]);
    assert ([e] + es[1..])[1..] == es[1..];
    assert ThumbnailSources(page') == thumbs;
  }

  /** The fallback selector is consulted only while fewer than two URLs were collected, and then
      every usable fallback source is collected. */
  lemma FallbackOnlyWhenFewerThanTwo(page: Page, k: int)
    ensures |ThumbnailStage(page)| >= FallbackThreshold ==> CollectedImages(page) == ThumbnailStage(page)
    ensures |ThumbnailStage(page)| < FallbackThreshold && 0 <= k < |Select(page, FallbackImageSelector)| &&
            IsImageUrl(Attr(Select(page, FallbackImageSelector)[k], "src")) ==>
              Canonical(Attr(Select(page, FallbackImageSelector)[k], "src").value) in CollectedImages(page)
  {
    var urls := ThumbnailStage(page);
    if |urls| < FallbackThreshold && 0 <= k < |Select(page, FallbackImageSelector)| &&
       IsImageUrl(Attr(Select(page, FallbackImageSelector)[k], "src")) {
      CollectComplete(urls, FallbackSources(page), k);
    }
  }

  /** The returned URLs are the first min(8, n) collected ones; the count is taken from the
      untruncated list, so beyond eight images it exceeds the returned thumbnails. */
  lemma Truncation(collected: seq<string>)
    ensures ImageUrls(collected) <= collected
    ensures |ImageUrls(collected)| == Min(MaxImageUrls, |collected|)
    ensures ThumbnailCount(collected) == if |collected| > 0 then |collected| - 1 else 0
    ensures |collected| > MaxImageUrls ==> ThumbnailCount(collected) > |ImageUrls(collected)| - 1
    ensures NoDuplicates(collected) ==> NoDuplicates(ImageUrls(collected))
  {
  }

  // ---------------------------------------------------------------- video

  /** `$('body').text().toLowerCase().includes('video')`. */
  predicate HasVideo(page: Page) {
    Contains(Lower(page.bodyText), VideoWord)
  }

  function VideoCount(page: Page): int {
    if HasVideo(page) then 1 else 0
  }

  // ---------------------------------------------------------------- bullets

  /** A trimmed text is kept when it is non-empty, does not mention warranty in any case, and
      is not already listed. */
  predicate Keeps(bullets: seq<string>, text: string) {
    text != "" && !Contains(Lower(text), ExcludedBulletWord) && text !in bullets
  }

  function AddBullet(bullets: seq<string>, e: Element): seq<string> {
    var text := Trim(e.text);
    if Keeps(bullets, text) then bullets + [text] else bullets
  }

  /** No entry is empty, mentions warranty, or repeats another. */
  predicate WellFormedBullets(bullets: seq<string>) {
    && NoDuplicates(bullets)
    && forall i | 0 <= i < |bullets| :: bullets[i] != "" && !Contains(Lower(bullets[i]), ExcludedBulletWord)
  }

  /** The `.each` loop over one selector's elements, starting from `bullets`. */
  function CollectBullets(bullets: seq<string>, es: seq<Element>): (r: seq<string>)
    ensures bullets <= r
    ensures WellFormedBullets(bullets) ==> WellFormedBullets(r)
    decreases |es|
  {
    if es == [] then bullets else AddBullet(CollectBullets(bullets, es[..|es| - 1]), es[|es| - 1])
  }

  /** The trimmed texts of the elements, in document order. */
  function TrimmedTexts(es: seq<Element>): (ts: seq<string>)
    ensures |ts| == |es|
    ensures forall i | 0 <= i < |es| :: ts[i] == Trim(es[i].text)
  {
    seq(|es|, i requires 0 <= i < |es| => Trim(es[i].text))
  }

  lemma TrimmedTextsStep(es: seq<Element>)
    requires es != []
    ensures TrimmedTexts(es) == TrimmedTexts(es[..|es| - 1]) + [Trim(es[|es| - 1].text)]
  {
    var ts := TrimmedTexts(es[..|es| - 1]) + [Trim(es[|es| - 1].text)];
    assert |TrimmedTexts(es)| == |ts|;
    forall i | 0 <= i < |ts| ensures TrimmedTexts(es)[i] == ts[i] {
      if i < |es| - 1 {
        assert ts[i] == TrimmedTexts(es[..|es| - 1])[i];
      }
    }
  }

  /** `a` is `b` with some entries left out, order kept. */
  predicate IsSubsequence(a: seq<string>, b: seq<string>)
    decreases |b|
  {
    if a == [] then true
    else if b == [] then false
    else (a[|a| - 1] == b[|b| - 1] && IsSubsequence(a[..|a| - 1], b[..|b| - 1])) || IsSubsequence(a, b[..|b| - 1])
  }

  lemma {:induction false} SubsequenceOfLonger(a: seq<string>, b: seq<string>, t: string)
    requires IsSubsequence(a, b)
    ensures IsSubsequence(a, b + [t])
  {
    if a != [] {
      assert (b + [t])[..|b|] == b;
    }
  }

  lemma SubsequenceOfBoth(a: seq<string>, b: seq<string>, t: string)
    requires IsSubsequence(a, b)
    ensures IsSubsequence(a + [t], b + [t])
  {
    assert (a + [t])[..|a|] == a;
    assert (b + [t])[..|b|] == b;
  }

  /** One step either keeps the list or appends the element's trimmed text, and appends it
      whenever it is non-empty and does not mention warranty but is not yet listed. */
  lemma AddBulletCases(bullets: seq<string>, e: Element)
    ensures AddBullet(bullets, e) == bullets || AddBullet(bullets, e) == bullets + [Trim(e.text)]
    ensures Trim(e.text) != "" && !Contains(Lower(Trim(e.text)), ExcludedBulletWord) ==>
              Trim(e.text) in AddBullet(bullets, e)
  {
  }

  lemma CollectBulletsStep(es: seq<Element>)
    requires es != []
    ensures CollectBullets([], es) == AddBullet(CollectBullets([], es[..|es| - 1]), es[|es| - 1])
  {
  }

  /** The collected bullets come in document order. */
  lemma {:induction false} CollectBulletsInOrder(es: seq<Element>)
    ensures IsSubsequence(CollectBullets([], es), TrimmedTexts(es))
    decreases |es|
  {
    if es != [] {
      var init := es[..|es| - 1];
      var e := es[|es| - 1];
      CollectBulletsInOrder(init);
      var prev := CollectBullets([], init);
      CollectBulletsStep(es);
      AddBulletCases(prev, e);
      var t := Trim(e.text);
      TrimmedTextsStep(es);
      if AddBullet(prev, e) == prev {
        SubsequenceOfLonger(prev, TrimmedTexts(init), t);
      } else {
        SubsequenceOfBoth(prev, TrimmedTexts(init), t);
      }
    }
  }

  /** Every trimmed text that is non-empty and does not mention warranty is collected. */
  lemma {:induction false} CollectBulletsCovers(es: seq<Element>, i: int)
    requires 0 <= i < |es|
    requires Trim(es[i].text) != "" && !Contains(Lower(Trim(es[i].text)), ExcludedBulletWord)
    ensures Trim(es[i].text) in CollectBullets([], es)
    decreases |es|
  {
    var init := es[..|es| - 1];
    var prev := CollectBullets([], init);
    CollectBulletsStep(es);
    AddBulletCases(prev, es[|es| - 1]);
    assert prev <= CollectBullets([], es);
    if i < |init| {
      assert init[i] == es[i];
      CollectBulletsCovers(init, i);
      assert Trim(es[i].text) in prev;
    } else {
      assert i == |es| - 1;
    }
  }

  /** The bullets each selector alone would yield, in order. */
  function BulletCandidates(page: Page, selectors: seq<string>): (cs: seq<seq<string>>)
    ensures |cs| == |selectors|
    ensures forall i | 0 <= i < |selectors| :: cs[i] == CollectBullets([], Select(page, selectors[i]))
  {
    seq(|selectors|, i requires 0 <= i < |selectors| => CollectBullets([], Select(page, selectors[i])))
  }

  /** The cascade stops at the first selector that contributed a kept bullet. */
  function Bullets(page: Page): seq<string> {
    FirstNonEmpty(BulletCandidates(page, BulletSelectors))
  }

  /** The bullets are well formed and all come, in document order, from one selector: the
      first in the list whose elements yield a kept bullet. */
  lemma BulletsProperties(page: Page, selectors: seq<string>)
    ensures var bullets := FirstNonEmpty(BulletCandidates(page, selectors));
      && WellFormedBullets(bullets)
      && (bullets == [] <==> forall i | 0 <= i < |selectors| :: CollectBullets([], Select(page, selectors[i])) == [])
      && (bullets != [] ==>
            exists k | 0 <= k < |selectors| ::
              && bullets == CollectBullets([], Select(page, selectors[k]))
              && IsSubsequence(bullets, TrimmedTexts(Select(page, selectors[k])))
              && forall j | 0 <= j < k :: CollectBullets([], Select(page, selectors[j])) == [])
  {
    var cs := BulletCandidates(page, selectors);
    var k := FirstNonEmptyIndex(cs);
    assert WellFormedBullets([]);
    if k < |cs| {
      assert WellFormedBullets(cs[k]);
      CollectBulletsInOrder(Select(page, selectors[k]));
    }
  }

  // ---------------------------------------------------------------- enhanced content

  /** Some selector of the list matches at least one element. */
  predicate AnyMatches(page: Page, selectors: seq<string>) {
    exists i | 0 <= i < |selectors| :: |Select(page, selectors[i])| > 0
  }

  predicate HasEnhancedContent(page: Page) {
    AnyMatches(page, EnhancedContentSelectors)
  }

  // ---------------------------------------------------------------- description

  /** `text += $(el).text().trim() + ' '` over the elements. */
  function JoinTrimmed(es: seq<Element>): string {
    if es == [] then "" else JoinTrimmed(es[..|es| - 1]) + Trim(es[|es| - 1].text) + " "
  }

  function DescriptionCandidate(page: Page, selector: string): string {
    Trim(JoinTrimmed(Select(page, selector)))
  }

  /** The candidate of each selector, in order. */
  function DescriptionCandidates(page: Page, selectors: seq<string>): (cs: seq<string>)
    ensures |cs| == |selectors|
    ensures forall i | 0 <= i < |selectors| :: cs[i] == DescriptionCandidate(page, selectors[i])
  {
    seq(|selectors|, i requires 0 <= i < |selectors| => DescriptionCandidate(page, selectors[i]))
  }

  function Description(page: Page): string {
    FirstNonEmpty(DescriptionCandidates(page, DescriptionSelectors))
  }

  /** The description is the trimmed join of the first selector, in list order, whose trimmed
      join is non-empty, and empty when there is none. */
  lemma DescriptionIsFirstMatch(page: Page, selectors: seq<string>)
    ensures var description := FirstNonEmpty(DescriptionCandidates(page, selectors));
      && IsTrimmed(description)
      && (description == "" <==> forall i | 0 <= i < |selectors| :: DescriptionCandidate(page, selectors[i]) == "")
      && (description != "" ==>
            exists k | 0 <= k < |selectors| ::
              && description == DescriptionCandidate(page, selectors[k])
              && forall j | 0 <= j < k :: DescriptionCandidate(page, selectors[j]) == "")
  {
    var cs := DescriptionCandidates(page, selectors);
    assert IsTrimmed([]);
  }

  lemma AllSpaceAppend(a: string, b: string)
    ensures AllSpace(a + b) <==> AllSpace(a) && AllSpace(b)
  {
    if AllSpace(a + b) {
      forall i | 0 <= i < |a| ensures IsSpace(a[i]) {
        assert a[i] == (a + b)[i];
      }
      forall i | 0 <= i < |b| ensures IsSpace(b[i]) {
        assert b[i] == (a + b)[|a| + i];
      }
    }
  }

  lemma TrimmedBlank(s: string)
    ensures AllSpace(Trim(s)) <==> AllSpace(s)
  {
    TrimEmpty(s);
    var r := Trim(s);
    if r != [] {
      assert !IsSpace(r[0]);
    }
  }

  lemma {:induction false} JoinAllSpace(es: seq<Element>)
    ensures AllSpace(JoinTrimmed(es)) <==> forall i | 0 <= i < |es| :: AllSpace(es[i].text)
    decreases |es|
  {
    if es != [] {
      var init := es[..|es| - 1];
      var e := es[|es| - 1];
      JoinAllSpace(init);
      AllSpaceAppend(JoinTrimmed(init) + Trim(e.text), " ");
      AllSpaceAppend(JoinTrimmed(init), Trim(e.text));
      TrimmedBlank(e.text);
      if forall i | 0 <= i < |init| :: AllSpace(init[i].text) {
        forall i | 0 <= i < |es| - 1 ensures AllSpace(es[i].text) {
          assert init[i] == es[i];
        }
      } else {
        var i :| 0 <= i < |init| && !AllSpace(init[i].text);
        assert es[i] == init[i];
      }
    }
  }

  /** A selector's joined text is blank exactly when every matched element's text is blank,
      and only then does the cascade move to the next selector. */
  lemma JoinBlankIffAllBlank(es: seq<Element>)
    ensures Trim(JoinTrimmed(es)) == "" <==> forall i | 0 <= i < |es| :: AllSpace(es[i].text)
  {
    JoinAllSpace(es);
    TrimEmpty(JoinTrimmed(es));
  }

  lemma JoinStep(es: seq<Element>, e: Element)
    ensures JoinTrimmed(es + [e]) == JoinTrimmed(es) + Trim(e.text) + " "
  {
    assert (es + [e])[..|es|] == es;
  }

  /** An element with blank text still contributes its separating space, so after another
      element it leaves two spaces in a row, which the final trim keeps when more text follows. */
  lemma BlankElementLeavesDoubleSpace(es: seq<Element>, blank: Element)
    requires es != [] && AllSpace(blank.text)
    ensures JoinTrimmed(es + [blank]) == JoinTrimmed(es) + " "
    ensures var j := JoinTrimmed(es + [blank]); |j| >= 2 && j[|j| - 2] == ' ' && j[|j| - 1] == ' '
  {
    JoinStep(es, blank);
    var j := JoinTrimmed(es);
    assert j == JoinTrimmed(es[..|es| - 1]) + Trim(es[|es| - 1].text) + " ";
    assert |j| >= 1 && j[|j| - 1] == ' ';
    TrimEmpty(blank.text);
    assert j + "" == j;
    var k := j + " ";
    assert JoinTrimmed(es + [blank]) == k;
    assert k[|k| - 2] == ' ' && k[|k| - 1] == ' ';
  }

  // ---------------------------------------------------------------- the record

  /** The record the extraction returns for `page` fetched from `url`. */
  function Product(page: Page, url: string): ProductContent {
    var collected := CollectedImages(page);
    ProductContent(
      title := Title(page),
      imageCount := ThumbnailCount(collected),
      imageUrls := ImageUrls(collected),
      hasVideo := HasVideo(page),
      videoCount := VideoCount(page),
      bulletPoints := Bullets(page),
      description := Description(page),
      hasEnhancedContent := HasEnhancedContent(page),
      url := url)
  }

  /** What every extracted record satisfies. */
  lemma ProductInvariants(page: Page, url: string)
    ensures var p := Product(page, url);
      && IsTrimmed(p.title)
      && (p.title == "" <==> forall i | 0 <= i < |TitleSelectors| :: TitleCandidate(page, TitleSelectors[i]) == "")
      && |p.imageUrls| <= MaxImageUrls && NoDuplicates(p.imageUrls)
      && p.imageUrls <= CollectedImages(page)
      && p.imageCount == (if |CollectedImages(page)| > 0 then |CollectedImages(page)| - 1 else 0)
      && (p.videoCount == 1 <==> p.hasVideo) && (p.videoCount == 0 <==> !p.hasVideo)
      && WellFormedBullets(p.bulletPoints)
      && IsTrimmed(p.description)
      && (p.description == "" <==> forall i | 0 <= i < |DescriptionSelectors| :: DescriptionCandidate(page, DescriptionSelectors[i]) == "")
      && p.url == url
  {
    ImagesDuplicateFree(page);
    Truncation(CollectedImages(page));
    BulletsProperties(page, BulletSelectors);
    TitleIsFirstMatch(page, TitleSelectors);
    DescriptionIsFirstMatch(page, DescriptionSelectors);
  }
}
