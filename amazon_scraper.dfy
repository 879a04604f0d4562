/** `scrapeAmazonProduct` of src/utils/amazonScraper.ts: the same extraction as the route, entered
    from a fetched response, throwing instead of answering when the fetch failed. */
module AmazonScraper {
  import opened Wrappers
  import opened Document
  import opened Content
  import opened Extraction
  import opened Extractor

  /** A response that is not ok throws an error naming its status text; otherwise the page is
      extracted, selector cascade by selector cascade, into the same record the route returns. */
  method ScrapeAmazonProduct(response: Response, url: string) returns (result: Result<ProductContent>)
    ensures !response.ok ==> result == Failure(FetchFailurePrefix + response.statusText)
    ensures response.ok ==> result == Success(Product(response.page, url))
  {
    if !response.ok {
      return Failure(FetchFailurePrefix + response.statusText);
    }
    var page := response.page;
    var title := ExtractTitle(page, TitleSelectors);
    var limitedImageUrls, thumbnailCount := ExtractImages(page);
    var hasVideo, videoCount := DetectVideo(page);
    var bulletPoints := ExtractBullets(page, BulletSelectors);
    var hasEnhancedContent := DetectEnhancedContent(page, EnhancedContentSelectors);
    var description := ExtractDescription(page, DescriptionSelectors);
    result := Success(ProductContent(
      title := title,
      imageCount := thumbnailCount,
      imageUrls := limitedImageUrls,
      hasVideo := hasVideo,
      videoCount := videoCount,
      bulletPoints := bulletPoints,
      description := description,
      hasEnhancedContent := hasEnhancedContent,
      url := url));
  }
}
