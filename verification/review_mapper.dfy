/** Field copies between the review API record and its entity. */
module ReviewMapper {
  import opened Api
  import opened Persistence

  /** The API view of a stored review, stamped with `serviceAddress`. */
  function EntityToApi(entity: ReviewEntity, serviceAddress: Address): (r: Review)
    ensures r.productId == entity.productId && r.reviewId == entity.reviewId
    ensures r.author == entity.author && r.subject == entity.subject && r.content == entity.content
    ensures r.serviceAddress == serviceAddress
  {
    Review(entity.productId, entity.reviewId, entity.author, entity.subject, entity.content,
           serviceAddress)
  }

  /** `EntityToApi` applied to every entity, keeping the list order. */
  function EntitiesToApis(entities: seq<ReviewEntity>, serviceAddress: Address): (rs: seq<Review>)
    ensures |rs| == |entities|
    ensures forall i :: 0 <= i < |entities| ==> rs[i] == EntityToApi(entities[i], serviceAddress)
  {
    if |entities| == 0 then []
    else [EntityToApi(entities[0], serviceAddress)] + EntitiesToApis(entities[1..], serviceAddress)
  }

  /** The entity to store for an API review. */
  function ApiToEntity(api: Review): (e: ReviewEntity)
    ensures e.productId == api.productId && e.reviewId == api.reviewId
    ensures e.author == api.author && e.subject == api.subject && e.content == api.content
  {
    ReviewEntity(api.productId, api.reviewId, api.author, api.subject, api.content)
  }

  /** Storing a review and reading it back only replaces its address. */
  lemma ApiRoundTrip(api: Review, serviceAddress: Address)
    ensures EntityToApi(ApiToEntity(api), serviceAddress) == api.(serviceAddress := serviceAddress)
  {
  }

  /** An entity survives a trip through the API view unchanged. */
  lemma EntityRoundTrip(entity: ReviewEntity, serviceAddress: Address)
    ensures ApiToEntity(EntityToApi(entity, serviceAddress)) == entity
  {
  }

  /** Mapping a list is mapping its two halves. */
  lemma EntitiesToApisConcat(a: seq<ReviewEntity>, b: seq<ReviewEntity>, serviceAddress: Address)
    ensures EntitiesToApis(a + b, serviceAddress)
         == EntitiesToApis(a, serviceAddress) + EntitiesToApis(b, serviceAddress)
  {
    var l := EntitiesToApis(a + b, serviceAddress);
    var r := EntitiesToApis(a, serviceAddress) + EntitiesToApis(b, serviceAddress);
    assert |l| == |r|;
    forall i | 0 <= i < |l| ensures l[i] == r[i] {
      if i < |a| {
        assert (a + b)[i] == a[i];
      } else {
        assert (a + b)[i] == b[i - |a|];
      }
    }
  }
}
