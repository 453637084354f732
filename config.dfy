/** The crawler settings the core reads, with the defaults of the
    configuration file (used whenever the caller's config leaves them out). */
module Config {

  /** Which optional fields the advanced crawler extracts. */
  datatype ExtractionFlags = ExtractionFlags(
    price: bool, rating: bool, reviews: bool, storeName: bool,
    storeRating: bool, availability: bool, shipping: bool)

  datatype CrawlerConfig = CrawlerConfig(maxRetries: int, defaultMaxPages: int, extraction: ExtractionFlags)

  const DefaultExtraction := ExtractionFlags(true, true, true, true, true, false, false)

  const Default := CrawlerConfig(3, 5, DefaultExtraction)
}
