/** The review backend: reviews keyed by
    (productId, reviewId), read and deleted per product. The store is
    kept in insertion order, which is the order reads return. */
module ReviewService {
  import opened Wrappers
  import opened Text
  import opened Api
  import opened Errors
  import opened Persistence
  import opened Seqs
  import ReviewMapper

  /** The review collection, in insertion order. */
  type Store = seq<ReviewEntity>

  function Key(e: ReviewEntity): (int, int) { (e.productId, e.reviewId) }

  /** The unique index on (productId, reviewId) holds. */
  predicate Valid(store: Store) {
    DistinctKeys(store, Key)
  }

  predicate HasKey(store: Store, productId: int, reviewId: int) {
    exists i :: 0 <= i < |store| && Key(store[i]) == (productId, reviewId)
  }

  function ForProduct(productId: int): ReviewEntity -> bool {
    (e: ReviewEntity) => e.productId == productId
  }

  function OtherThan(productId: int): ReviewEntity -> bool {
    (e: ReviewEntity) => e.productId != productId
  }

  /** `getKeyString`: the label, then the key rendered as in `"(%d, %d)"`. */
  function KeyString(productId: int, reviewId: int): (s: string)
    ensures |s| > 22 && s[..22] == "(ProductId,ReviewId): " && s[|s| - 1] == ')'
    ensures s[22..] == Text.Pair(productId, reviewId)
  {
    "(ProductId,ReviewId): " + Text.Pair(productId, reviewId)
  }

  /** The rendered key names one key only: equal renderings come from equal
      ids, so a duplicate-key message identifies the offending entity. */
  lemma {:induction false} KeyStringInjective(p1: int, i1: int, p2: int, i2: int)
    requires KeyString(p1, i1) == KeyString(p2, i2)
    ensures p1 == p2 && i1 == i2
  {
    assert KeyString(p1, i1)[22..] == KeyString(p2, i2)[22..];
    Text.PairInjective(p1, i1, p2, i2);
  }

  function InvalidProductId(productId: int): Error {
    InvalidInput("Invalid productId: " + IntToString(productId))
  }

  function DuplicateKey(productId: int, reviewId: int): Error {
    InvalidInput("Duplicate key " + KeyString(productId, reviewId))
  }

  /** The k-th entry of `read` is the product's k-th stored entity, with the
      address: `Kept` gives the product's store positions, strictly
      increasing and all of them. */
  predicate InStoreOrder(store: Store, productId: int, serviceAddress: string, read: seq<Review>) {
    var at := Kept(store, ForProduct(productId));
    && |read| == |at|
    && forall k :: 0 <= k < |at| ==> read[k] == ReviewMapper.EntityToApi(store[at[k]], Some(serviceAddress))
  }

  /** `getReviews`: ids below 1 are invalid; otherwise exactly the
      stored reviews of the product, in the order they are stored, stamped
      with this service's address. A product without reviews gives an empty list. */
  function GetReviews(store: Store, productId: Int32, serviceAddress: string)
    : (r: Result<seq<Review>, Error>)
    ensures productId < 1 <==> r.Failure?
    ensures productId < 1 ==> r.error == InvalidProductId(productId)
    ensures r.Success? ==> forall i :: 0 <= i < |r.value| ==>
              && r.value[i].productId == productId
              && r.value[i].serviceAddress == Some(serviceAddress)
              && ReviewMapper.ApiToEntity(r.value[i]) in store
    ensures r.Success? ==> forall i :: 0 <= i < |store| && store[i].productId == productId ==>
              ReviewMapper.EntityToApi(store[i], Some(serviceAddress)) in r.value
  {
    if productId < 1 then Failure(InvalidProductId(productId))
    else
      var found := Filter(store, ForProduct(productId));
      var rs := ReviewMapper.EntitiesToApis(found, Some(serviceAddress));
      assert forall i :: 0 <= i < |store| && store[i].productId == productId ==>
               ReviewMapper.EntityToApi(store[i], Some(serviceAddress)) in rs by {
        forall i | 0 <= i < |store| && store[i].productId == productId
          ensures ReviewMapper.EntityToApi(store[i], Some(serviceAddress)) in rs
        {
          assert store[i] in found;
          var k :| 0 <= k < |found| && found[k] == store[i];
          assert rs[k] == ReviewMapper.EntityToApi(store[i], Some(serviceAddress));
        }
      }
      Success(rs)
  }

  /** `createReview`: a new key is stored and the input is echoed with
      this service's address; an existing key is a duplicate and the store is
      left as it was. No productId check is made. */
  function CreateReview(store: Store, review: Review, serviceAddress: string)
    : (r: (Store, Result<Review, Error>))
    ensures HasKey(store, review.productId, review.reviewId) ==>
              && r.0 == store
              && r.1 == Failure(DuplicateKey(review.productId, review.reviewId))
    ensures !HasKey(store, review.productId, review.reviewId) ==>
              && r.0 == store + [ReviewMapper.ApiToEntity(review)]
              && r.1 == Success(review.(serviceAddress := Some(serviceAddress)))
    ensures HasKey(r.0, review.productId, review.reviewId)
    ensures Valid(store) ==> Valid(r.0)
  {
    if HasKey(store, review.productId, review.reviewId) then
      (store, Failure(DuplicateKey(review.productId, review.reviewId)))
    else
      var entity := ReviewMapper.ApiToEntity(review);
      ReviewMapper.ApiRoundTrip(review, Some(serviceAddress));
      assert Valid(store) ==> Valid(store + [entity]) by {
        if Valid(store) { AppendDistinct(store, entity, Key); }
      }
      assert (store + [entity])[|store|] == entity;
      (store + [entity], Success(ReviewMapper.EntityToApi(entity, Some(serviceAddress))))
  }

  /** `deleteReviews`: removes every review of the product and
      no other; it never fails. */
  function DeleteReviews(store: Store, productId: Int32): (r: Store)
    ensures forall i :: 0 <= i < |r| ==> r[i] in store && r[i].productId != productId
    ensures forall i :: 0 <= i < |store| && store[i].productId != productId ==> store[i] in r
    ensures Valid(store) ==> Valid(r)
  {
    var r := Filter(store, OtherThan(productId));
    assert Valid(store) ==> Valid(r) by {
      if Valid(store) { FilterDistinct(store, OtherThan(productId), Key); }
    }
    r
  }

  /** A key is in a store grown by one entity when it was there before or is
      that entity's key. */
  lemma HasKeyAppend(store: Store, entity: ReviewEntity, productId: int, reviewId: int)
    ensures HasKey(store + [entity], productId, reviewId)
            <==> HasKey(store, productId, reviewId) || Key(entity) == (productId, reviewId)
  {
    if HasKey(store + [entity], productId, reviewId) && Key(entity) != (productId, reviewId) {
      var i :| 0 <= i < |store + [entity]| && Key((store + [entity])[i]) == (productId, reviewId);
      assert (store + [entity])[i] == store[i];
    }
    if HasKey(store, productId, reviewId) {
      var i :| 0 <= i < |store| && Key(store[i]) == (productId, reviewId);
      assert (store + [entity])[i] == store[i];
    }
    if Key(entity) == (productId, reviewId) {
      assert (store + [entity])[|store|] == entity;
    }
  }

  /** A product with nothing stored reads as an empty list, not an error. */
  lemma NoneStoredIsEmpty(store: Store, productId: Int32, serviceAddress: string)
    requires productId >= 1
    requires forall i :: 0 <= i < |store| ==> store[i].productId != productId
    ensures GetReviews(store, productId, serviceAddress) == Success([])
  {
    FilterNone(store, ForProduct(productId));
  }

  /** A successful create appends to the end of its product's read, so reads
      return reviews in the order they were created. */
  lemma CreateThenGet(store: Store, review: Review, serviceAddress: string)
    requires review.productId >= 1
    requires !HasKey(store, review.productId, review.reviewId)
    ensures var s := CreateReview(store, review, serviceAddress).0;
            GetReviews(s, review.productId, serviceAddress)
            == Success(GetReviews(store, review.productId, serviceAddress).value
                       + [review.(serviceAddress := Some(serviceAddress))])
  {
    var pid := review.productId;
    var entity := ReviewMapper.ApiToEntity(review);
    var sa := Some(serviceAddress);
    var s := store + [entity];
    assert CreateReview(store, review, serviceAddress).0 == s;
    var before := Filter(store, ForProduct(pid));
    FilterConcat(store, [entity], ForProduct(pid));
    assert Filter([entity], ForProduct(pid)) == [entity] by {
      assert [entity][1..] == [];
    }
    ReviewMapper.EntitiesToApisConcat(before, [entity], sa);
    assert ReviewMapper.EntitiesToApis([entity], sa) == [review.(serviceAddress := sa)] by {
      ReviewMapper.ApiRoundTrip(review, sa);
    }
    ReadIsMappedFilter(store, pid, serviceAddress);
    ReadIsMappedFilter(s, pid, serviceAddress);
  }

  /** A read of a valid id lists the product's stored reviews in the order
      they are stored: entry k is the entity at the k-th of the product's
      store positions, which `Kept` gives strictly increasing and complete. */
  lemma ReadInStoreOrder(store: Store, productId: Int32, serviceAddress: string)
    requires productId >= 1
    ensures InStoreOrder(store, productId, serviceAddress, GetReviews(store, productId, serviceAddress).value)
  {
    ReadIsMappedFilter(store, productId, serviceAddress);
  }

  /** A read of a valid id maps the product's entities in store order. */
  lemma ReadIsMappedFilter(store: Store, productId: Int32, serviceAddress: string)
    requires productId >= 1
    ensures GetReviews(store, productId, serviceAddress)
            == Success(ReviewMapper.EntitiesToApis(Filter(store, ForProduct(productId)), Some(serviceAddress)))
  {
  }

  /** A create for one product does not change the reads of another. */
  lemma CreateKeepsOtherProducts(store: Store, review: Review, productId: Int32, serviceAddress: string)
    requires review.productId != productId
    ensures var s := CreateReview(store, review, serviceAddress).0;
            GetReviews(s, productId, serviceAddress) == GetReviews(store, productId, serviceAddress)
  {
    var entity := ReviewMapper.ApiToEntity(review);
    if !HasKey(store, review.productId, review.reviewId) {
      FilterConcat(store, [entity], ForProduct(productId));
      assert !ForProduct(productId)(entity);
      assert Filter([entity], ForProduct(productId)) == [] by {
        assert [entity][1..] == [];
      }
      assert Filter(store + [entity], ForProduct(productId)) == Filter(store, ForProduct(productId));
    }
  }

  /** After a delete the product has no reviews. */
  lemma DeleteThenGet(store: Store, productId: Int32, serviceAddress: string)
    requires productId >= 1
    ensures GetReviews(DeleteReviews(store, productId), productId, serviceAddress) == Success([])
  {
    FilterDisjoint(store, OtherThan(productId), ForProduct(productId));
  }

  /** A delete leaves the reads of every other product as they were. */
  lemma DeleteKeepsOthers(store: Store, productId: Int32, other: Int32, serviceAddress: string)
    requires other != productId
    ensures GetReviews(DeleteReviews(store, productId), other, serviceAddress)
            == GetReviews(store, other, serviceAddress)
  {
    FilterNarrower(store, OtherThan(productId), ForProduct(other));
  }

  /** Deleting twice is deleting once. */
  lemma DeleteIdempotent(store: Store, productId: Int32)
    ensures DeleteReviews(DeleteReviews(store, productId), productId)
            == DeleteReviews(store, productId)
  {
    FilterNarrower(store, OtherThan(productId), OtherThan(productId));
  }

  /** Creating the same review twice: the second create is refused with a
      duplicate-key error whose message starts with "Duplicate key", and the
      store keeps the one copy the first create wrote. */
  lemma CreateTwiceIsDuplicate(store: Store, review: Review, serviceAddress: string)
    requires !HasKey(store, review.productId, review.reviewId)
    ensures var (s1, r1) := CreateReview(store, review, serviceAddress);
            var (s2, r2) := CreateReview(s1, review, serviceAddress);
            && r1.Success? && s2 == s1 && |s2| == |store| + 1
            && r2 == Failure(DuplicateKey(review.productId, review.reviewId))
            && r2.error.message[..13] == "Duplicate key"
  {
    HasKeyAppend(store, ReviewMapper.ApiToEntity(review), review.productId, review.reviewId);
  }
}
