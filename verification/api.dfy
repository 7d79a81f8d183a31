/** The records exchanged over the services' REST interfaces. A
    `serviceAddress` is the diagnostic "which instance answered" string;
    Java lets it be null, so it is an `Address`. Other string fields are
    assumed non-null. */
module Api {
  import opened Wrappers
  import opened Text

  /** A service address, `None` when null. */
  type Address = Option<string>

  datatype Product = Product(productId: Int32, name: string, weight: Int32, serviceAddress: Address)

  datatype Recommendation = Recommendation(
    productId: Int32, recommendationId: Int32, author: string, rate: Int32, content: string,
    serviceAddress: Address)

  datatype Review = Review(
    productId: Int32, reviewId: Int32, author: string, subject: string, content: string,
    serviceAddress: Address)

  /** A recommendation as the composite shows it: no product id, no address. */
  datatype RecommendationSummary = RecommendationSummary(
    recommendationId: Int32, author: string, rate: Int32, content: string)

  /** A review as the composite shows it. This is the four-field shape the
      composite service constructs and reads, `content` included. */
  datatype ReviewSummary = ReviewSummary(reviewId: Int32, author: string, subject: string, content: string)

  /** Which instance answered each part of a composite read. */
  datatype ServiceAddresses = ServiceAddresses(
    compositeAddress: Address, productAddress: Address, reviewAddress: Address,
    recommendationAddress: Address)

  /** The composite view of a product; a list is `None` when null. */
  datatype ProductAggregate = ProductAggregate(
    productId: Int32, name: string, weight: Int32,
    recommendations: Option<seq<RecommendationSummary>>,
    reviews: Option<seq<ReviewSummary>>,
    serviceAddresses: ServiceAddresses)
}
