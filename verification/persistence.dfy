/** The stored shape of each backend's records. The database-assigned `id`
    and the optimistic-locking `version` of the entities are not modelled:
    the mappers ignore them and nothing in the services reads them. */
module Persistence {
  import opened Text

  datatype ProductEntity = ProductEntity(productId: Int32, name: string, weight: Int32)

  /** The stored recommendation names its score `rating`; the API calls it `rate`. */
  datatype RecommendationEntity = RecommendationEntity(
    productId: Int32, recommendationId: Int32, author: string, rating: Int32, content: string)

  datatype ReviewEntity = ReviewEntity(
    productId: Int32, reviewId: Int32, author: string, subject: string, content: string)
}
