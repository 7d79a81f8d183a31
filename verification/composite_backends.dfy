/** The composite service run against the three backend models: writes go
    straight to the backend stores, and the composite read goes through each
    backend's exception handler and the integration's client. This is the
    whole system in one place, where the composite's promises about a
    sequence of operations can be stated. */
module CompositeBackends {
  import opened Wrappers
  import opened Text
  import opened Api
  import opened Errors
  import opened Persistence
  import Composite
  import Integration
  import ProductService
  import RecommendationService
  import ReviewService
  import ProductMapper
  import RecommendationMapper
  import ReviewMapper

  /** The three backend stores. */
  datatype Backends = Backends(
    products: ProductService.Store,
    recommendations: RecommendationService.Store,
    reviews: ReviewService.Store)

  predicate Valid(b: Backends) {
    && ProductService.Valid(b.products)
    && RecommendationService.Valid(b.recommendations)
    && ReviewService.Valid(b.reviews)
  }

  /** The service address each instance reports. */
  datatype Addresses = Addresses(composite: string, product: string, recommendation: string, review: string)

  function OutcomeOf<T>(r: Result<T, Error>): (o: Outcome<Error>)
    ensures o.Pass? <==> r.Success?
    ensures o.Fail? ==> o.error == r.error
  {
    match r
    case Success(_) => Pass
    case Failure(e) => Fail(e)
  }

  /** One composite write call carried out by the backend it targets. */
  function Apply(a: Addresses, b: Backends, call: Composite.Call): (r: (Backends, Outcome<Error>))
    ensures Valid(b) ==> Valid(r.0)
    ensures call.CreateProductCall? || call.DeleteProductCall? ==>
              r.0.recommendations == b.recommendations && r.0.reviews == b.reviews
    ensures call.CreateRecommendationCall? || call.DeleteRecommendationsCall? ==>
              r.0.products == b.products && r.0.reviews == b.reviews
    ensures call.CreateReviewCall? || call.DeleteReviewsCall? ==>
              r.0.products == b.products && r.0.recommendations == b.recommendations
    ensures r.1.Fail? ==> r.0 == b && r.1.error.InvalidInput?
    ensures call.CreateProductCall? ==>
              && (r.1.Pass? <==> !ProductService.HasProduct(b.products, call.product.productId))
              && ProductService.HasProduct(r.0.products, call.product.productId)
    ensures call.CreateRecommendationCall? ==>
              var rec := call.recommendation;
              && (r.1.Pass? <==> !RecommendationService.HasKey(b.recommendations, rec.productId, rec.recommendationId))
              && RecommendationService.HasKey(r.0.recommendations, rec.productId, rec.recommendationId)
    ensures call.CreateReviewCall? ==>
              var rev := call.review;
              && (r.1.Pass? <==> !ReviewService.HasKey(b.reviews, rev.productId, rev.reviewId))
              && ReviewService.HasKey(r.0.reviews, rev.productId, rev.reviewId)
    ensures call.DeleteProductCall? ==> r.1.Pass? && !ProductService.HasProduct(r.0.products, call.productId)
    ensures call.DeleteRecommendationsCall? ==>
              r.1.Pass? && forall i :: 0 <= i < |r.0.recommendations| ==> r.0.recommendations[i].productId != call.productId
    ensures call.DeleteReviewsCall? ==>
              r.1.Pass? && forall i :: 0 <= i < |r.0.reviews| ==> r.0.reviews[i].productId != call.productId
  {
    match call
    case CreateProductCall(p) =>
      var (s, res) := ProductService.CreateProduct(b.products, p, a.product);
      (b.(products := s), OutcomeOf(res))
    case CreateRecommendationCall(rec) =>
      var (s, res) := RecommendationService.CreateRecommendation(b.recommendations, rec, a.recommendation);
      (b.(recommendations := s), OutcomeOf(res))
    case CreateReviewCall(rev) =>
      var (s, res) := ReviewService.CreateReview(b.reviews, rev, a.review);
      (b.(reviews := s), OutcomeOf(res))
    case DeleteProductCall(id) =>
      (b.(products := ProductService.DeleteProduct(b.products, id)), Pass)
    case DeleteRecommendationsCall(id) =>
      (b.(recommendations := RecommendationService.DeleteRecommendations(b.recommendations, id)), Pass)
    case DeleteReviewsCall(id) =>
      (b.(reviews := ReviewService.DeleteReviews(b.reviews, id)), Pass)
  }

  function Backend(a: Addresses): (Backends, Composite.Call) -> (Backends, Outcome<Error>) {
    (b: Backends, c: Composite.Call) => Apply(a, b, c)
  }

  /** The composite `createProduct` against the backends. */
  function CreateComposite(a: Addresses, b: Backends, aggregate: ProductAggregate): (r: (Backends, Composite.Trace))
    ensures Composite.IsPrefix(r.1.issued, Composite.CreateCalls(aggregate))
    ensures |r.1.issued| > 0 && r.1.issued[0] == Composite.CreateProductCall(Composite.ProductOf(aggregate))
    ensures r.1.outcome.Pass? ==> r.1.issued == Composite.CreateCalls(aggregate)
  {
    Composite.Run(b, Composite.CreateCalls(aggregate), Backend(a))
  }

  /** The composite `deleteProduct` against the backends: all three deletes
      are made, in order, and none of them fails. */
  function DeleteComposite(a: Addresses, b: Backends, productId: Int32): (r: (Backends, Composite.Trace))
    ensures r.1 == Composite.Trace(Composite.DeleteCalls(productId), Pass)
    ensures r.0 == Backends(
                     ProductService.DeleteProduct(b.products, productId),
                     RecommendationService.DeleteRecommendations(b.recommendations, productId),
                     ReviewService.DeleteReviews(b.reviews, productId))
  {
    var calls := Composite.DeleteCalls(productId);
    var b1 := b.(products := ProductService.DeleteProduct(b.products, productId));
    var b2 := b1.(recommendations := RecommendationService.DeleteRecommendations(b.recommendations, productId));
    var b3 := b2.(reviews := ReviewService.DeleteReviews(b.reviews, productId));
    assert calls[2..][1..] == [];
    assert Composite.Run(b2, calls[2..], Backend(a)) == (b3, Composite.Trace(calls[2..], Pass));
    assert calls[1..][1..] == calls[2..];
    assert Composite.Run(b1, calls[1..], Backend(a)) == (b3, Composite.Trace(calls[1..], Pass));
    Composite.Run(b, calls, Backend(a))
  }

  /** The composite `getProduct`: each backend answers through its exception
      handler, the integration reads the replies, the composite merges them. */
  function GetComposite(a: Addresses, b: Backends, productId: Int32): (r: Result<ProductAggregate, Error>)
    requires ProductService.Valid(b.products)
    ensures r.Success? ==> r.value.productId == productId
  {
    var product := Integration.GetProduct(Integration.Remote(
      ProductService.GetProduct(b.products, productId, a.product), "/product/" + IntToString(productId)));
    var recommendations := Integration.GetRecommendations(Integration.Remote(
      RecommendationService.GetRecommendations(b.recommendations, productId, a.recommendation), "/recommendation"));
    var reviews := Integration.GetReviews(Integration.Remote(
      ReviewService.GetReviews(b.reviews, productId, a.review), "/review"));
    var found := match product
      case Success(p) => Success(Some(p))
      case Failure(e) => Failure(e);
    Composite.GetProduct(productId, found, recommendations, reviews, a.composite)
  }

  /** An id below 1 is rejected by the product backend, and the composite
      reports that rejection with the backend's message. */
  lemma GetCompositeInvalidId(a: Addresses, b: Backends, productId: Int32)
    requires ProductService.Valid(b.products) && productId < 1
    ensures GetComposite(a, b, productId)
            == Failure(InvalidInput("Invalid productId: " + IntToString(productId)))
  {
    Integration.GetProductOverHttp(ProductService.GetProduct(b.products, productId, a.product),
                                   "/product/" + IntToString(productId));
  }

  /** An absent product is reported as not found with the backend's message. */
  lemma GetCompositeNotFound(a: Addresses, b: Backends, productId: Int32)
    requires ProductService.Valid(b.products) && productId >= 1
    requires !ProductService.HasProduct(b.products, productId)
    ensures GetComposite(a, b, productId)
            == Failure(NotFound("No product found for productId: " + IntToString(productId)))
  {
    Integration.GetProductOverHttp(ProductService.GetProduct(b.products, productId, a.product),
                                   "/product/" + IntToString(productId));
  }

  /** Deleting a composite twice succeeds both times, and the second delete
      changes nothing. */
  lemma DeleteCompositeIdempotent(a: Addresses, b: Backends, productId: Int32)
    ensures var (b1, t1) := DeleteComposite(a, b, productId);
            var (b2, t2) := DeleteComposite(a, b1, productId);
            t1.outcome.Pass? && t2.outcome.Pass? && b2 == b1
  {
    ProductService.DeleteIdempotent(b.products, productId);
    RecommendationService.DeleteIdempotent(b.recommendations, productId);
    ReviewService.DeleteIdempotent(b.reviews, productId);
  }

  /** Creating a composite whose product already exists fails with the
      product backend's duplicate-key error, makes no other call, and changes
      nothing. */
  lemma DuplicateProductAbortsCreate(a: Addresses, b: Backends, aggregate: ProductAggregate)
    requires ProductService.HasProduct(b.products, aggregate.productId)
    ensures CreateComposite(a, b, aggregate)
            == (b, Composite.Trace([Composite.CreateProductCall(Composite.ProductOf(aggregate))],
                                   Fail(InvalidInput("Duplicate key, Product Id: " + IntToString(aggregate.productId)))))
  {
    var calls := Composite.CreateCalls(aggregate);
    assert Apply(a, b, calls[0]).0 == b;
  }

  /** What a read returns for records written in order by one backend: the
      records themselves, stamped with that backend's address. */
  function StampedRecommendations(rs: seq<Recommendation>, serviceAddress: string): (r: seq<Recommendation>)
    ensures |r| == |rs|
    ensures forall i :: 0 <= i < |rs| ==> r[i] == rs[i].(serviceAddress := Some(serviceAddress))
  {
    if |rs| == 0 then []
    else [rs[0].(serviceAddress := Some(serviceAddress))] + StampedRecommendations(rs[1..], serviceAddress)
  }

  function StampedReviews(rs: seq<Review>, serviceAddress: string): (r: seq<Review>)
    ensures |r| == |rs|
    ensures forall i :: 0 <= i < |rs| ==> r[i] == rs[i].(serviceAddress := Some(serviceAddress))
  {
    if |rs| == 0 then []
    else [rs[0].(serviceAddress := Some(serviceAddress))] + StampedReviews(rs[1..], serviceAddress)
  }

  /** A sequence built by putting `x` in front of `tail` starts with `x`,
      and what follows is `tail`. */
  lemma ConsTail<T>(x: T, tail: seq<T>)
    ensures ([x] + tail)[0] == x && ([x] + tail)[1..] == tail
  {
  }

  /** Concatenation is associative. */
  lemma AppendAssoc<T>(a: seq<T>, b: seq<T>, c: seq<T>)
    ensures a + b + c == a + (b + c)
  {
  }

  /** Creating recommendations with fresh keys for one product succeeds call
      by call, touches only the recommendation store, and appends exactly
      those recommendations, in order, to the product's read. */
  lemma {:induction false} RunRecommendationCreates(a: Addresses, b: Backends, productId: Int32, rs: seq<Recommendation>)
    requires productId >= 1
    requires forall i :: 0 <= i < |rs| ==> rs[i].productId == productId
    requires forall i, j :: 0 <= i < j < |rs| ==> rs[i].recommendationId != rs[j].recommendationId
    requires forall i :: 0 <= i < |rs| ==>
               !RecommendationService.HasKey(b.recommendations, productId, rs[i].recommendationId)
    ensures var r := Composite.Run(b, Composite.CreateRecommendationCalls(rs), Backend(a));
            && r.1.outcome.Pass?
            && r.0.products == b.products && r.0.reviews == b.reviews
            && RecommendationService.GetRecommendations(r.0.recommendations, productId, a.recommendation)
               == Success(RecommendationService.GetRecommendations(b.recommendations, productId, a.recommendation).value
                          + StampedRecommendations(rs, a.recommendation))
    decreases |rs|
  {
    var calls := Composite.CreateRecommendationCalls(rs);
    var sa := a.recommendation;
    var before := RecommendationService.GetRecommendations(b.recommendations, productId, sa).value;
    if |rs| == 0 {
      assert calls == [];
      assert before + StampedRecommendations(rs, sa) == before;
    } else {
      var first := Composite.CreateRecommendationCall(rs[0]);
      var tail := rs[1..];
      ConsTail(first, Composite.CreateRecommendationCalls(tail));
      var entity := RecommendationMapper.ApiToEntity(rs[0]);
      var b1 := b.(recommendations := b.recommendations + [entity]);
      assert Apply(a, b, calls[0]) == (b1, Pass);
      RecommendationService.CreateThenGet(b.recommendations, rs[0], sa);
      var stamp := rs[0].(serviceAddress := Some(sa));
      assert RecommendationService.GetRecommendations(b1.recommendations, productId, sa).value == before + [stamp];
      forall i | 0 <= i < |tail|
        ensures !RecommendationService.HasKey(b1.recommendations, productId, tail[i].recommendationId)
      {
        RecommendationService.HasKeyAppend(b.recommendations, entity, productId, tail[i].recommendationId);
      }
      RunRecommendationCreates(a, b1, productId, tail);
      AppendAssoc(before, [stamp], StampedRecommendations(tail, sa));
    }
  }

  /** The review counterpart of `RunRecommendationCreates`. */
  lemma {:induction false} RunReviewCreates(a: Addresses, b: Backends, productId: Int32, rs: seq<Review>)
    requires productId >= 1
    requires forall i :: 0 <= i < |rs| ==> rs[i].productId == productId
    requires forall i, j :: 0 <= i < j < |rs| ==> rs[i].reviewId != rs[j].reviewId
    requires forall i :: 0 <= i < |rs| ==> !ReviewService.HasKey(b.reviews, productId, rs[i].reviewId)
    ensures var r := Composite.Run(b, Composite.CreateReviewCalls(rs), Backend(a));
            && r.1.outcome.Pass?
            && r.0.products == b.products && r.0.recommendations == b.recommendations
            && ReviewService.GetReviews(r.0.reviews, productId, a.review)
               == Success(ReviewService.GetReviews(b.reviews, productId, a.review).value
                          + StampedReviews(rs, a.review))
    decreases |rs|
  {
    var calls := Composite.CreateReviewCalls(rs);
    var sa := a.review;
    var before := ReviewService.GetReviews(b.reviews, productId, sa).value;
    if |rs| == 0 {
      assert calls == [];
      assert before + StampedReviews(rs, sa) == before;
    } else {
      var first := Composite.CreateReviewCall(rs[0]);
      var tail := rs[1..];
      ConsTail(first, Composite.CreateReviewCalls(tail));
      var entity := ReviewMapper.ApiToEntity(rs[0]);
      var b1 := b.(reviews := b.reviews + [entity]);
      assert Apply(a, b, calls[0]) == (b1, Pass);
      ReviewService.CreateThenGet(b.reviews, rs[0], sa);
      var stamp := rs[0].(serviceAddress := Some(sa));
      assert ReviewService.GetReviews(b1.reviews, productId, sa).value == before + [stamp];
      forall i | 0 <= i < |tail|
        ensures !ReviewService.HasKey(b1.reviews, productId, tail[i].reviewId)
      {
        ReviewService.HasKeyAppend(b.reviews, entity, productId, tail[i].reviewId);
      }
      RunReviewCreates(a, b1, productId, tail);
      AppendAssoc(before, [stamp], StampedReviews(tail, sa));
    }
  }

  /** No backend holds anything for `productId` yet. */
  predicate Unused(b: Backends, productId: int) {
    && !ProductService.HasProduct(b.products, productId)
    && (forall i :: 0 <= i < |b.recommendations| ==> b.recommendations[i].productId != productId)
    && (forall i :: 0 <= i < |b.reviews| ==> b.reviews[i].productId != productId)
  }

  /** The summaries of an aggregate name each recommendation and each review
      once, so none of the composite's creates collides with an earlier one. */
  predicate DistinctSummaryIds(aggregate: ProductAggregate) {
    var recs := Composite.OrEmpty(aggregate.recommendations);
    var revs := Composite.OrEmpty(aggregate.reviews);
    && (forall i, j :: 0 <= i < j < |recs| ==> recs[i].recommendationId != recs[j].recommendationId)
    && (forall i, j :: 0 <= i < j < |revs| ==> revs[i].reviewId != revs[j].reviewId)
  }

  /** Creating a composite for an unused id issues every call without a
      failure, and afterwards each backend reads back exactly what was
      written for that id. */
  lemma CreateCompositeSucceeds(a: Addresses, b: Backends, aggregate: ProductAggregate)
    requires ProductService.Valid(b.products) && aggregate.productId >= 1
    requires Unused(b, aggregate.productId) && DistinctSummaryIds(aggregate)
    ensures var pid := aggregate.productId;
            var (b1, t) := CreateComposite(a, b, aggregate);
            && t == Composite.Trace(Composite.CreateCalls(aggregate), Pass)
            && ProductService.Valid(b1.products)
            && ProductService.GetProduct(b1.products, pid, a.product)
               == Success(Composite.ProductOf(aggregate).(serviceAddress := Some(a.product)))
            && RecommendationService.GetRecommendations(b1.recommendations, pid, a.recommendation)
               == Success(StampedRecommendations(
                    Composite.RecommendationsOf(pid, Composite.OrEmpty(aggregate.recommendations)), a.recommendation))
            && ReviewService.GetReviews(b1.reviews, pid, a.review)
               == Success(StampedReviews(Composite.ReviewsOf(pid, Composite.OrEmpty(aggregate.reviews)), a.review))
  {
    var pid := aggregate.productId;
    var p := Composite.ProductOf(aggregate);
    var recs := Composite.RecommendationsOf(pid, Composite.OrEmpty(aggregate.recommendations));
    var revs := Composite.ReviewsOf(pid, Composite.OrEmpty(aggregate.reviews));
    var pc := [Composite.CreateProductCall(p)];
    var rc := Composite.CreateRecommendationCalls(recs);
    var vc := Composite.CreateReviewCalls(revs);
    var step := Backend(a);
    assert Composite.CreateCalls(aggregate) == pc + rc + vc;

    ProductService.CreateThenGet(b.products, p, a.product);
    var b0 := b.(products := b.products + [ProductMapper.ApiToEntity(p)]);
    assert Apply(a, b, pc[0]) == (b0, Pass);
    assert pc[1..] == [];
    assert Composite.Run(b, pc, step) == (b0, Composite.Trace(pc, Pass));

    RecommendationService.NoneStoredIsEmpty(b.recommendations, pid, a.recommendation);
    forall i | 0 <= i < |recs|
      ensures !RecommendationService.HasKey(b0.recommendations, pid, recs[i].recommendationId)
    {
    }
    RunRecommendationCreates(a, b0, pid, recs);
    Composite.RunConcat(b, pc, rc, step);
    var b1 := Composite.Run(b0, rc, step).0;

    ReviewService.NoneStoredIsEmpty(b.reviews, pid, a.review);
    forall i | 0 <= i < |revs|
      ensures !ReviewService.HasKey(b1.reviews, pid, revs[i].reviewId)
    {
    }
    RunReviewCreates(a, b1, pid, revs);
    Composite.RunConcat(b, pc + rc, vc, step);
    assert [] + StampedRecommendations(recs, a.recommendation) == StampedRecommendations(recs, a.recommendation);
    assert [] + StampedReviews(revs, a.review) == StampedReviews(revs, a.review);
  }

  /** The composite read after a successful composite create gives back the
      aggregate that was written: a null summary list reads back as an empty
      one, summaries keep their order, and the addresses name the instances
      that answered (the empty address standing for a list with no entries). */
  lemma CreateThenGet(a: Addresses, b: Backends, aggregate: ProductAggregate)
    requires ProductService.Valid(b.products) && aggregate.productId >= 1
    requires Unused(b, aggregate.productId) && DistinctSummaryIds(aggregate)
    ensures var (b1, t) := CreateComposite(a, b, aggregate);
            var recs := Composite.OrEmpty(aggregate.recommendations);
            var revs := Composite.OrEmpty(aggregate.reviews);
            && t.outcome.Pass?
            && ProductService.Valid(b1.products)
            && GetComposite(a, b1, aggregate.productId)
               == Success(aggregate.(
                    recommendations := Some(recs),
                    reviews := Some(revs),
                    serviceAddresses := ServiceAddresses(
                      Some(a.composite), Some(a.product),
                      if |revs| == 0 then Some("") else Some(a.review),
                      if |recs| == 0 then Some("") else Some(a.recommendation))))
  {
    CreateCompositeSucceeds(a, b, aggregate);
    var pid := aggregate.productId;
    var b1 := CreateComposite(a, b, aggregate).0;
    var sums := Composite.OrEmpty(aggregate.recommendations);
    var revSums := Composite.OrEmpty(aggregate.reviews);
    var product := Composite.ProductOf(aggregate).(serviceAddress := Some(a.product));
    var recs := StampedRecommendations(Composite.RecommendationsOf(pid, sums), a.recommendation);
    var revs := StampedReviews(Composite.ReviewsOf(pid, revSums), a.review);
    GetCompositeWhenAllAnswer(a, b1, pid, product, recs, revs);
    StampedRecommendationsSummarise(pid, sums, a.recommendation);
    StampedReviewsSummarise(pid, revSums, a.review);
  }

  /** When every backend answers a read, the composite read is the aggregate
      of their answers. */
  lemma GetCompositeWhenAllAnswer(a: Addresses, b: Backends, productId: Int32, product: Product,
                                  recommendations: seq<Recommendation>, reviews: seq<Review>)
    requires ProductService.Valid(b.products)
    requires ProductService.GetProduct(b.products, productId, a.product) == Success(product)
    requires RecommendationService.GetRecommendations(b.recommendations, productId, a.recommendation)
             == Success(recommendations)
    requires ReviewService.GetReviews(b.reviews, productId, a.review) == Success(reviews)
    ensures GetComposite(a, b, productId)
            == Success(Composite.CreateProductAggregate(product, recommendations, reviews, a.composite))
  {
    Integration.GetProductOverHttp(Success(product), "/product/" + IntToString(productId));
  }

  /** The summaries of the recommendations written for an aggregate, as a
      backend reads them back, are the aggregate's summaries. */
  lemma StampedRecommendationsSummarise(productId: Int32, summaries: seq<RecommendationSummary>, serviceAddress: string)
    ensures Composite.ConvertRecommendations(Some(StampedRecommendations(
              Composite.RecommendationsOf(productId, summaries), serviceAddress))) == summaries
  {
  }

  /** The review counterpart of `StampedRecommendationsSummarise`. */
  lemma StampedReviewsSummarise(productId: Int32, summaries: seq<ReviewSummary>, serviceAddress: string)
    ensures Composite.ConvertReviews(Some(StampedReviews(Composite.ReviewsOf(productId, summaries), serviceAddress)))
            == summaries
  {
  }

  /** After a composite delete, the composite read of that id is not found,
      and the id is unused again, so a new create of it can succeed. */
  lemma DeleteThenGet(a: Addresses, b: Backends, productId: Int32)
    requires ProductService.Valid(b.products) && productId >= 1
    ensures var b1 := DeleteComposite(a, b, productId).0;
            && ProductService.Valid(b1.products)
            && Unused(b1, productId)
            && GetComposite(a, b1, productId)
               == Failure(NotFound("No product found for productId: " + IntToString(productId)))
  {
    var b1 := DeleteComposite(a, b, productId).0;
    GetCompositeNotFound(a, b1, productId);
  }

  /** As the composite is wired, its writes go to the integration, whose
      product stubs throw: a composite create or delete fails on its first
      call with the stub's error and makes no other call. */
  lemma WritesThroughIntegrationFail(aggregate: ProductAggregate, productId: Int32)
    ensures var reply := OutcomeOf(Integration.CreateProduct(Composite.ProductOf(aggregate)));
            Composite.CreateProduct(aggregate, [reply])
            == Composite.Trace([Composite.CreateProductCall(Composite.ProductOf(aggregate))],
                               Fail(NotImplemented("Not yet implemented")))
    ensures var reply := Integration.DeleteProduct(productId);
            Composite.DeleteProduct(productId, [reply])
            == Composite.Trace([Composite.DeleteProductCall(productId)], Fail(NotImplemented("Not yet implemented")))
  {
    Composite.ProductFailureStopsCreate(aggregate, [OutcomeOf(Integration.CreateProduct(Composite.ProductOf(aggregate)))]);
    var t := Composite.DeleteProduct(productId, [Integration.DeleteProduct(productId)]);
    assert t.issued == Composite.DeleteCalls(productId)[..1];
  }

  /** Recommendation and review creates never touch the product store. */
  lemma {:induction false} ChildCreatesKeepProducts(a: Addresses, b: Backends, calls: seq<Composite.Call>)
    requires forall i :: 0 <= i < |calls| ==> calls[i].CreateRecommendationCall? || calls[i].CreateReviewCall?
    ensures Composite.Run(b, calls, Backend(a)).0.products == b.products
    decreases |calls|
  {
    if |calls| > 0 {
      var b1 := Apply(a, b, calls[0]).0;
      ChildCreatesKeepProducts(a, b1, calls[1..]);
    }
  }

  /** A composite create undoes nothing: once its product create has
      passed, the product stays stored whether or not a later
      recommendation or review create fails. */
  lemma CreateCompositeKeepsProduct(a: Addresses, b: Backends, aggregate: ProductAggregate)
    requires !ProductService.HasProduct(b.products, aggregate.productId)
    ensures var (b1, t) := CreateComposite(a, b, aggregate);
            && ProductService.HasProduct(b1.products, aggregate.productId)
            && (t.outcome.Fail? ==> |t.issued| > 1)
  {
    var calls := Composite.CreateCalls(aggregate);
    var b0 := Apply(a, b, calls[0]).0;
    var recs := Composite.RecommendationsOf(aggregate.productId, Composite.OrEmpty(aggregate.recommendations));
    forall i | 0 <= i < |calls[1..]|
      ensures calls[1..][i].CreateRecommendationCall? || calls[1..][i].CreateReviewCall?
    {
      if i < |recs| {
        assert calls[1 + i].CreateRecommendationCall?;
      } else {
        assert calls[1 + |recs| + (i - |recs|)].CreateReviewCall?;
      }
    }
    ChildCreatesKeepProducts(a, b0, calls[1..]);
  }
}
