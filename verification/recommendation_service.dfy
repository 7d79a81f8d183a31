/** The recommendation backend: recommendations keyed by
    (productId, recommendationId), read and deleted per product. The store is
    kept in insertion order, which is the order reads return. */
module RecommendationService {
  import opened Wrappers
  import opened Text
  import opened Api
  import opened Errors
  import opened Persistence
  import opened Seqs
  import RecommendationMapper

  /** The recommendation collection, in insertion order. */
  type Store = seq<RecommendationEntity>

  function Key(e: RecommendationEntity): (int, int) { (e.productId, e.recommendationId) }

  /** The unique index on (productId, recommendationId) holds. */
  predicate Valid(store: Store) {
    DistinctKeys(store, Key)
  }

  predicate HasKey(store: Store, productId: int, recommendationId: int) {
    exists i :: 0 <= i < |store| && Key(store[i]) == (productId, recommendationId)
  }

  function ForProduct(productId: int): RecommendationEntity -> bool {
    (e: RecommendationEntity) => e.productId == productId
  }

  function OtherThan(productId: int): RecommendationEntity -> bool {
    (e: RecommendationEntity) => e.productId != productId
  }

  /** `getKeyString`: the label, then the key rendered as in `"(%d, %d)"`. */
  function KeyString(productId: int, recommendationId: int): (s: string)
    ensures |s| > 30 && s[..30] == "(ProductId,RecommendationId): " && s[|s| - 1] == ')'
    ensures s[30..] == Text.Pair(productId, recommendationId)
  {
    "(ProductId,RecommendationId): " + Text.Pair(productId, recommendationId)
  }

  /** The rendered key names one key only: equal renderings come from equal
      ids, so a duplicate-key message identifies the offending entity. */
  lemma {:induction false} KeyStringInjective(p1: int, i1: int, p2: int, i2: int)
    requires KeyString(p1, i1) == KeyString(p2, i2)
    ensures p1 == p2 && i1 == i2
  {
    assert KeyString(p1, i1)[30..] == KeyString(p2, i2)[30..];
    Text.PairInjective(p1, i1, p2, i2);
  }

  function InvalidProductId(productId: int): Error {
    InvalidInput("Invalid productId: " + IntToString(productId))
  }

  function DuplicateKey(productId: int, recommendationId: int): Error {
    InvalidInput("Duplicate key " + KeyString(productId, recommendationId))
  }

  /** The k-th entry of `read` is the product's k-th stored entity, with the
      address: `Kept` gives the product's store positions, strictly
      increasing and all of them. */
  predicate InStoreOrder(store: Store, productId: int, serviceAddress: string, read: seq<Recommendation>) {
    var at := Kept(store, ForProduct(productId));
    && |read| == |at|
    && forall k :: 0 <= k < |at| ==> read[k] == RecommendationMapper.EntityToApi(store[at[k]], Some(serviceAddress))
  }

  /** `getRecommendations`: ids below 1 are invalid; otherwise exactly the
      stored recommendations of the product, in the order they are stored, stamped
      with this service's address. A product without recommendations gives an empty list. */
  function GetRecommendations(store: Store, productId: Int32, serviceAddress: string)
    : (r: Result<seq<Recommendation>, Error>)
    ensures productId < 1 <==> r.Failure?
    ensures productId < 1 ==> r.error == InvalidProductId(productId)
    ensures r.Success? ==> forall i :: 0 <= i < |r.value| ==>
              && r.value[i].productId == productId
              && r.value[i].serviceAddress == Some(serviceAddress)
              && RecommendationMapper.ApiToEntity(r.value[i]) in store
    ensures r.Success? ==> forall i :: 0 <= i < |store| && store[i].productId == productId ==>
              RecommendationMapper.EntityToApi(store[i], Some(serviceAddress)) in r.value
  {
    if productId < 1 then Failure(InvalidProductId(productId))
    else
      var found := Filter(store, ForProduct(productId));
      var rs := RecommendationMapper.EntitiesToApis(found, Some(serviceAddress));
      assert forall i :: 0 <= i < |store| && store[i].productId == productId ==>
               RecommendationMapper.EntityToApi(store[i], Some(serviceAddress)) in rs by {
        forall i | 0 <= i < |store| && store[i].productId == productId
          ensures RecommendationMapper.EntityToApi(store[i], Some(serviceAddress)) in rs
        {
          assert store[i] in found;
          var k :| 0 <= k < |found| && found[k] == store[i];
          assert rs[k] == RecommendationMapper.EntityToApi(store[i], Some(serviceAddress));
        }
      }
      Success(rs)
  }

  /** `createRecommendation`: a new key is stored and the input is echoed with
      this service's address; an existing key is a duplicate and the store is
      left as it was. No productId check is made. */
  function CreateRecommendation(store: Store, recommendation: Recommendation, serviceAddress: string)
    : (r: (Store, Result<Recommendation, Error>))
    ensures HasKey(store, recommendation.productId, recommendation.recommendationId) ==>
              && r.0 == store
              && r.1 == Failure(DuplicateKey(recommendation.productId, recommendation.recommendationId))
    ensures !HasKey(store, recommendation.productId, recommendation.recommendationId) ==>
              && r.0 == store + [RecommendationMapper.ApiToEntity(recommendation)]
              && r.1 == Success(recommendation.(serviceAddress := Some(serviceAddress)))
    ensures HasKey(r.0, recommendation.productId, recommendation.recommendationId)
    ensures Valid(store) ==> Valid(r.0)
  {
    if HasKey(store, recommendation.productId, recommendation.recommendationId) then
      (store, Failure(DuplicateKey(recommendation.productId, recommendation.recommendationId)))
    else
      var entity := RecommendationMapper.ApiToEntity(recommendation);
      RecommendationMapper.ApiRoundTrip(recommendation, Some(serviceAddress));
      assert Valid(store) ==> Valid(store + [entity]) by {
        if Valid(store) { AppendDistinct(store, entity, Key); }
      }
      assert (store + [entity])[|store|] == entity;
      (store + [entity], Success(RecommendationMapper.EntityToApi(entity, Some(serviceAddress))))
  }

  /** `deleteRecommendations`: removes every recommendation of the product and
      no other; it never fails. */
  function DeleteRecommendations(store: Store, productId: Int32): (r: Store)
    ensures forall i :: 0 <= i < |r| ==> r[i] in store && r[i].productId != productId
    ensures forall i :: 0 <= i < |store| && store[i].productId != productId ==> store[i] in r
    ensures Valid(store) ==> Valid(r)
  {
    var r := Filter(store, OtherThan(productId));
    assert Valid(store) ==> Valid(r) by {
      if Valid(store) { FilterDistinct(store, OtherThan(productId), Key); }
    }
    r
  }

  /** A key is in a store grown by one entity when it was there before or is
      that entity's key. */
  lemma HasKeyAppend(store: Store, entity: RecommendationEntity, productId: int, recommendationId: int)
    ensures HasKey(store + [entity], productId, recommendationId)
            <==> HasKey(store, productId, recommendationId) || Key(entity) == (productId, recommendationId)
  {
    if HasKey(store + [entity], productId, recommendationId) && Key(entity) != (productId, recommendationId) {
      var i :| 0 <= i < |store + [entity]| && Key((store + [entity])[i]) == (productId, recommendationId);
      assert (store + [entity])[i] == store[i];
    }
    if HasKey(store, productId, recommendationId) {
      var i :| 0 <= i < |store| && Key(store[i]) == (productId, recommendationId);
      assert (store + [entity])[i] == store[i];
    }
    if Key(entity) == (productId, recommendationId) {
      assert (store + [entity])[|store|] == entity;
    }
  }

  /** A product with nothing stored reads as an empty list, not an error. */
  lemma NoneStoredIsEmpty(store: Store, productId: Int32, serviceAddress: string)
    requires productId >= 1
    requires forall i :: 0 <= i < |store| ==> store[i].productId != productId
    ensures GetRecommendations(store, productId, serviceAddress) == Success([])
  {
    FilterNone(store, ForProduct(productId));
  }

  /** A successful create appends to the end of its product's read, so reads
      return recommendations in the order they were created. */
  lemma CreateThenGet(store: Store, recommendation: Recommendation, serviceAddress: string)
    requires recommendation.productId >= 1
    requires !HasKey(store, recommendation.productId, recommendation.recommendationId)
    ensures var s := CreateRecommendation(store, recommendation, serviceAddress).0;
            GetRecommendations(s, recommendation.productId, serviceAddress)
            == Success(GetRecommendations(store, recommendation.productId, serviceAddress).value
                       + [recommendation.(serviceAddress := Some(serviceAddress))])
  {
    var pid := recommendation.productId;
    var entity := RecommendationMapper.ApiToEntity(recommendation);
    var sa := Some(serviceAddress);
    var s := store + [entity];
    assert CreateRecommendation(store, recommendation, serviceAddress).0 == s;
    var before := Filter(store, ForProduct(pid));
    FilterConcat(store, [entity], ForProduct(pid));
    assert Filter([entity], ForProduct(pid)) == [entity] by {
      assert [entity][1..] == [];
    }
    RecommendationMapper.EntitiesToApisConcat(before, [entity], sa);
    assert RecommendationMapper.EntitiesToApis([entity], sa) == [recommendation.(serviceAddress := sa)] by {
      RecommendationMapper.ApiRoundTrip(recommendation, sa);
    }
    ReadIsMappedFilter(store, pid, serviceAddress);
    ReadIsMappedFilter(s, pid, serviceAddress);
  }

  /** A read of a valid id lists the product's stored recommendations in the order
      they are stored: entry k is the entity at the k-th of the product's
      store positions, which `Kept` gives strictly increasing and complete. */
  lemma ReadInStoreOrder(store: Store, productId: Int32, serviceAddress: string)
    requires productId >= 1
    ensures InStoreOrder(store, productId, serviceAddress, GetRecommendations(store, productId, serviceAddress).value)
  {
    ReadIsMappedFilter(store, productId, serviceAddress);
  }

  /** A read of a valid id maps the product's entities in store order. */
  lemma ReadIsMappedFilter(store: Store, productId: Int32, serviceAddress: string)
    requires productId >= 1
    ensures GetRecommendations(store, productId, serviceAddress)
            == Success(RecommendationMapper.EntitiesToApis(Filter(store, ForProduct(productId)), Some(serviceAddress)))
  {
  }

  /** A create for one product does not change the reads of another. */
  lemma CreateKeepsOtherProducts(store: Store, recommendation: Recommendation, productId: Int32, serviceAddress: string)
    requires recommendation.productId != productId
    ensures var s := CreateRecommendation(store, recommendation, serviceAddress).0;
            GetRecommendations(s, productId, serviceAddress) == GetRecommendations(store, productId, serviceAddress)
  {
    var entity := RecommendationMapper.ApiToEntity(recommendation);
    if !HasKey(store, recommendation.productId, recommendation.recommendationId) {
      FilterConcat(store, [entity], ForProduct(productId));
      assert !ForProduct(productId)(entity);
      assert Filter([entity], ForProduct(productId)) == [] by {
        assert [entity][1..] == [];
      }
      assert Filter(store + [entity], ForProduct(productId)) == Filter(store, ForProduct(productId));
    }
  }

  /** After a delete the product has no recommendations. */
  lemma DeleteThenGet(store: Store, productId: Int32, serviceAddress: string)
    requires productId >= 1
    ensures GetRecommendations(DeleteRecommendations(store, productId), productId, serviceAddress) == Success([])
  {
    FilterDisjoint(store, OtherThan(productId), ForProduct(productId));
  }

  /** A delete leaves the reads of every other product as they were. */
  lemma DeleteKeepsOthers(store: Store, productId: Int32, other: Int32, serviceAddress: string)
    requires other != productId
    ensures GetRecommendations(DeleteRecommendations(store, productId), other, serviceAddress)
            == GetRecommendations(store, other, serviceAddress)
  {
    FilterNarrower(store, OtherThan(productId), ForProduct(other));
  }

  /** Deleting twice is deleting once. */
  lemma DeleteIdempotent(store: Store, productId: Int32)
    ensures DeleteRecommendations(DeleteRecommendations(store, productId), productId)
            == DeleteRecommendations(store, productId)
  {
    FilterNarrower(store, OtherThan(productId), OtherThan(productId));
  }

  /** Creating the same recommendation twice: the second create is refused with a
      duplicate-key error whose message starts with "Duplicate key", and the
      store keeps the one copy the first create wrote. */
  lemma CreateTwiceIsDuplicate(store: Store, recommendation: Recommendation, serviceAddress: string)
    requires !HasKey(store, recommendation.productId, recommendation.recommendationId)
    ensures var (s1, r1) := CreateRecommendation(store, recommendation, serviceAddress);
            var (s2, r2) := CreateRecommendation(s1, recommendation, serviceAddress);
            && r1.Success? && s2 == s1 && |s2| == |store| + 1
            && r2 == Failure(DuplicateKey(recommendation.productId, recommendation.recommendationId))
            && r2.error.message[..13] == "Duplicate key"
  {
    HasKeyAppend(store, RecommendationMapper.ApiToEntity(recommendation), recommendation.productId, recommendation.recommendationId);
  }
}
