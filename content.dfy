/** The product record both extractors return and the evaluator reads
    (`AmazonProductData` in src/utils/amazonScraper.ts). */
module Content {
  datatype ProductContent = ProductContent(
    title: string,
    imageCount: int,
    imageUrls: seq<string>,
    hasVideo: bool,
    videoCount: int,
    bulletPoints: seq<string>,
    description: string,
    hasEnhancedContent: bool,
    url: string)
}
