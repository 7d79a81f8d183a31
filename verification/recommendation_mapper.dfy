/** Field copies between the recommendation API record and its entity; the
    score is `rate` in the API and `rating` in the store. */
module RecommendationMapper {
  import opened Api
  import opened Persistence

  /** The API view of a stored recommendation, stamped with `serviceAddress`. */
  function EntityToApi(entity: RecommendationEntity, serviceAddress: Address): (r: Recommendation)
    ensures r.productId == entity.productId && r.recommendationId == entity.recommendationId
    ensures r.author == entity.author && r.content == entity.content
    ensures r.rate == entity.rating
    ensures r.serviceAddress == serviceAddress
  {
    Recommendation(entity.productId, entity.recommendationId, entity.author, entity.rating,
                   entity.content, serviceAddress)
  }

  /** `EntityToApi` applied to every entity, keeping the list order. */
  function EntitiesToApis(entities: seq<RecommendationEntity>, serviceAddress: Address): (rs: seq<Recommendation>)
    ensures |rs| == |entities|
    ensures forall i :: 0 <= i < |entities| ==> rs[i] == EntityToApi(entities[i], serviceAddress)
  {
    if |entities| == 0 then []
    else [EntityToApi(entities[0], serviceAddress)] + EntitiesToApis(entities[1..], serviceAddress)
  }

  /** The entity to store for an API recommendation; `rate` becomes `rating`. */
  function ApiToEntity(api: Recommendation): (e: RecommendationEntity)
    ensures e.productId == api.productId && e.recommendationId == api.recommendationId
    ensures e.author == api.author && e.content == api.content
    ensures e.rating == api.rate
  {
    RecommendationEntity(api.productId, api.recommendationId, api.author, api.rate, api.content)
  }

  /** Storing a recommendation and reading it back only replaces its address. */
  lemma ApiRoundTrip(api: Recommendation, serviceAddress: Address)
    ensures EntityToApi(ApiToEntity(api), serviceAddress) == api.(serviceAddress := serviceAddress)
  {
  }

  /** An entity survives a trip through the API view unchanged. */
  lemma EntityRoundTrip(entity: RecommendationEntity, serviceAddress: Address)
    ensures ApiToEntity(EntityToApi(entity, serviceAddress)) == entity
  {
  }

  /** Mapping a list is mapping its two halves. */
  lemma EntitiesToApisConcat(a: seq<RecommendationEntity>, b: seq<RecommendationEntity>, serviceAddress: Address)
    ensures EntitiesToApis(a + b, serviceAddress)
         == EntitiesToApis(a, serviceAddress) + EntitiesToApis(b, serviceAddress)
  {
    var l := EntitiesToApis(a + b, serviceAddress);
    var r := EntitiesToApis(a, serviceAddress) + EntitiesToApis(b, serviceAddress);
    assert |l| == |r|;
    forall i | 0 <= i < |l| ensures l[i] == r[i] {
      if i < |a| {
        assert (a + b)[i] == a[i];
      } else {
        assert (a + b)[i] == b[i - |a|];
      }
    }
  }
}
