/** The extraction section of the `POST` handler in src/app/api/analyze/route.ts, step by step:
    selector loops that stop at the first hit, the image list and its seen-set updated in
    place, and the description text accumulated element by element. Each method is proved
    equal to the corresponding function of module Extraction. */
module Extractor {
  import opened Wrappers
  import opened Text
  import opened Document
  import opened Content
  import opened Extraction

  /** The first title selector whose trimmed text is non-empty gives the title. */
  method ExtractTitle(page: Page, titleSelectors: seq<string>) returns (title: string)
    ensures title == FirstNonEmpty(TitleCandidates(page, titleSelectors))
  {
    title := "";
    for i := 0 to |titleSelectors|
      invariant title == ""
      invariant forall j | 0 <= j < i :: TitleCandidates(page, titleSelectors)[j] == ""
    {
      var titleText := Trim(TextOf(Select(page, titleSelectors[i])));
      if titleText != "" {
        title := titleText;
        FirstNonEmptyAt(TitleCandidates(page, titleSelectors), i);
        break;
      }
    }
  }

  lemma CollectImagesStep(urls: seq<string>, srcs: seq<Option<string>>, k: int)
    requires 0 <= k < |srcs|
    ensures CollectImages(urls, srcs[..k + 1]) == AddImage(CollectImages(urls, srcs[..k]), srcs[k])
  {
    assert srcs[..k + 1][..k] == srcs[..k];
  }

  /** Pushes the canonical form of a usable source unless it was seen already. */
  method AddSource(urls: seq<string>, seen: set<string>, src: Option<string>)
    returns (urls': seq<string>, seen': set<string>)
    requires seen == set u | u in urls
    ensures urls' == AddImage(urls, src)
    ensures seen' == set u | u in urls'
  {
    urls', seen' := urls, seen;
    if src.Some? && Contains(src.value, UrlMarker) {
      var cleanedUrl := Canonical(src.value);
      if cleanedUrl !in seen {
        urls' := urls + [cleanedUrl];
        seen' := seen + {cleanedUrl};
      }
    }
  }

  /** The untruncated image list: main image, thumbnails after the first, and the fallback
      images while fewer than two were found. */
  method CollectPageImages(page: Page) returns (imageUrls: seq<string>)
    ensures imageUrls == CollectedImages(page)
  {
    imageUrls := [];
    var seenUrls: set<string> := {};

    var mainImage := Select(page, MainImageSelector);
    if |mainImage| > 0 {
      var src := Attr(mainImage[0], "src");
      if !(src.Some? && src.value != "") {
        src := Attr(mainImage[0], "data-old-hires");
      }
      if src.Some? && Contains(src.value, UrlMarker) {
        var cleanedUrl := Canonical(src.value);
        imageUrls := imageUrls + [cleanedUrl];
        seenUrls := seenUrls + {cleanedUrl};
      }
    }
    var first := imageUrls;
    assert first == AddImage([], MainImageSource(page));

    var thumbnails := Select(page, ThumbnailSelector);
    ghost var srcs := ThumbnailSources(page);
    for index := 0 to |thumbnails|
      invariant imageUrls == CollectImages(first, srcs[..if index == 0 then 0 else index - 1])
      invariant seenUrls == set u | u in imageUrls
    {
      if index == 0 {
        continue;
      }
      assert srcs[index - 1] == Attr(thumbnails[index], "src");
      CollectImagesStep(first, srcs, index - 1);
      imageUrls, seenUrls := AddSource(imageUrls, seenUrls, Attr(thumbnails[index], "src"));
    }
    assert srcs[..if |thumbnails| == 0 then 0 else |thumbnails| - 1] == srcs;
    var afterThumbnails := imageUrls;

    if |imageUrls| < FallbackThreshold {
      var fallback := Select(page, FallbackImageSelector);
      ghost var more := FallbackSources(page);
      for k := 0 to |fallback|
        invariant imageUrls == CollectImages(afterThumbnails, more[..k])
        invariant seenUrls == set u | u in imageUrls
      {
        CollectImagesStep(afterThumbnails, more, k);
        imageUrls, seenUrls := AddSource(imageUrls, seenUrls, Attr(fallback[k], "src"));
      }
      assert more[..|fallback|] == more;
    }
  }

  /** The returned URLs (at most eight) and the number of thumbnails of the untruncated list. */
  method ExtractImages(page: Page) returns (limitedImageUrls: seq<string>, thumbnailCount: int)
    ensures limitedImageUrls == ImageUrls(CollectedImages(page))
    ensures thumbnailCount == ThumbnailCount(CollectedImages(page))
  {
    var imageUrls := CollectPageImages(page);
    var thumbnailUrls := if |imageUrls| == 0 then [] else imageUrls[1..];
    limitedImageUrls := imageUrls[..if |imageUrls| < MaxImageUrls then |imageUrls| else MaxImageUrls];
    thumbnailCount := |thumbnailUrls|;
  }

  /** Whether the lower-cased body text mentions "video", and the video count it implies. */
  method DetectVideo(page: Page) returns (hasVideo: bool, videoCount: int)
    ensures hasVideo == HasVideo(page)
    ensures videoCount == VideoCount(page)
  {
    var pageText := Lower(page.bodyText);
    hasVideo := Contains(pageText, VideoWord);
    videoCount := if hasVideo then 1 else 0;
  }

  lemma CollectBulletsPrefixStep(bullets: seq<string>, es: seq<Element>, k: int)
    requires 0 <= k < |es|
    ensures CollectBullets(bullets, es[..k + 1]) == AddBullet(CollectBullets(bullets, es[..k]), es[k])
  {
    assert es[..k + 1][..k] == es[..k];
  }

  /** The `.each` callback over one selector's elements: a trimmed text is pushed when it is
      non-empty, does not mention warranty and is not listed yet. */
  method PushKeptBullets(bulletPoints: seq<string>, elements: seq<Element>) returns (bulletPoints': seq<string>)
    ensures bulletPoints' == CollectBullets(bulletPoints, elements)
  {
    bulletPoints' := bulletPoints;
    for k := 0 to |elements|
      invariant bulletPoints' == CollectBullets(bulletPoints, elements[..k])
    {
      CollectBulletsPrefixStep(bulletPoints, elements, k);
      var text := Trim(elements[k].text);
      if text != "" && !Contains(Lower(text), ExcludedBulletWord) && text !in bulletPoints' {
        bulletPoints' := bulletPoints' + [text];
      }
    }
    assert elements[..|elements|] == elements;
  }

  /** The bullet cascade: each selector's elements are filtered into the list, and the first
      selector that leaves the list non-empty ends the cascade. */
  method ExtractBullets(page: Page, bulletPointsSelectors: seq<string>) returns (bulletPoints: seq<string>)
    ensures bulletPoints == FirstNonEmpty(BulletCandidates(page, bulletPointsSelectors))
  {
    ghost var candidates := BulletCandidates(page, bulletPointsSelectors);
    bulletPoints := [];
    for i := 0 to |bulletPointsSelectors|
      invariant |bulletPoints| == 0
      invariant forall j | 0 <= j < i :: |candidates[j]| == 0
    {
      bulletPoints := PushKeptBullets(bulletPoints, Select(page, bulletPointsSelectors[i]));
      if |bulletPoints| > 0 {
        FirstNonEmptyAt(candidates, i);
        break;
      }
    }
    if |bulletPoints| == 0 {
      FirstNonEmptyNone(candidates);
    }
  }

  /** True as soon as one enhanced-content selector matches something. */
  method DetectEnhancedContent(page: Page, enhancedContentSelectors: seq<string>) returns (hasEnhancedContent: bool)
    ensures hasEnhancedContent == AnyMatches(page, enhancedContentSelectors)
  {
    hasEnhancedContent := false;
    for i := 0 to |enhancedContentSelectors|
      invariant !hasEnhancedContent
      invariant forall j | 0 <= j < i :: |Select(page, enhancedContentSelectors[j])| == 0
    {
      if |Select(page, enhancedContentSelectors[i])| > 0 {
        hasEnhancedContent := true;
        break;
      }
    }
  }

  lemma JoinPrefixStep(es: seq<Element>, k: int)
    requires 0 <= k < |es|
    ensures JoinTrimmed(es[..k + 1]) == JoinTrimmed(es[..k]) + Trim(es[k].text) + " "
  {
    assert es[..k + 1][..k] == es[..k];
  }

  /** Each element's trimmed text followed by a space, concatenated. */
  method JoinElementTexts(elements: seq<Element>) returns (text: string)
    ensures text == JoinTrimmed(elements)
  {
    text := "";
    for k := 0 to |elements|
      invariant text == JoinTrimmed(elements[..k])
    {
      JoinPrefixStep(elements, k);
      text := text + Trim(elements[k].text) + " ";
    }
    assert elements[..|elements|] == elements;
  }

  /** One step of the description cascade: when the selector matches, its elements' trimmed
      texts joined, each followed by a space, and trimmed; otherwise the empty string. */
  method DescriptionOf(page: Page, selector: string) returns (description: string)
    ensures description == DescriptionCandidate(page, selector)
  {
    description := "";
    var elements := Select(page, selector);
    if |elements| > 0 {
      var text := JoinElementTexts(elements);
      description := Trim(text);
    }
  }

  /** The description cascade: the first selector whose trimmed join is non-empty wins. */
  method ExtractDescription(page: Page, descriptionSelectors: seq<string>) returns (description: string)
    ensures description == FirstNonEmpty(DescriptionCandidates(page, descriptionSelectors))
  {
    description := "";
    for i := 0 to |descriptionSelectors|
      invariant description == ""
      invariant forall j | 0 <= j < i :: DescriptionCandidates(page, descriptionSelectors)[j] == ""
    {
      var candidate := DescriptionOf(page, descriptionSelectors[i]);
      if candidate != "" {
        description := candidate;
        FirstNonEmptyAt(DescriptionCandidates(page, descriptionSelectors), i);
        break;
      }
      assert DescriptionCandidates(page, descriptionSelectors)[i] == candidate;
    }
  }

  /** What the route answers: the product record as JSON, or an error body with a status. */
  datatype Reply = ProductReply(content: ProductContent) | ErrorReply(status: int, message: string)

  /** The text that prefixes a failed fetch's status text, in both extractors. */
  const FetchFailurePrefix := "Failed to fetch Amazon page: "

  /** `POST` from the fetched response on: a response that is not ok is answered with its own
      status and a message naming its status text; otherwise the page is extracted. */
  method Analyze(response: Response, url: string) returns (reply: Reply)
    ensures !response.ok ==> reply == ErrorReply(response.status, FetchFailurePrefix + response.statusText)
    ensures response.ok ==> reply == ProductReply(Product(response.page, url))
  {
    if !response.ok {
      return ErrorReply(response.status, FetchFailurePrefix + response.statusText);
    }
    var content := ExtractProduct(response.page, url);
    reply := ProductReply(content);
  }

  /** The record the route returns for `page` fetched from `url`. */
  method ExtractProduct(page: Page, url: string) returns (content: ProductContent)
    ensures content == Product(page, url)
  {
    var title := ExtractTitle(page, TitleSelectors);
    var limitedImageUrls, thumbnailCount := ExtractImages(page);
    var hasVideo, videoCount := DetectVideo(page);
    var bulletPoints := ExtractBullets(page, BulletSelectors);
    var hasEnhancedContent := DetectEnhancedContent(page, EnhancedContentSelectors);
    var description := ExtractDescription(page, DescriptionSelectors);
    content := ProductContent(
      title := title,
      imageCount := thumbnailCount,
      imageUrls := limitedImageUrls,
      hasVideo := hasVideo,
      videoCount := videoCount,
      bulletPoints := bulletPoints,
      description := description,
      hasEnhancedContent := hasEnhancedContent,
      url := url);
  }
}
