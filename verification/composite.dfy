/** The composite product service: it reads a product with its
    recommendations and reviews into one aggregate, and splits an aggregate
    into the backend writes that create or delete it. The backends are
    abstract here: a read is given the integration's results, and a write is
    a plan of backend calls run against any backend, one call at a time,
    stopping at the first failure. */
module Composite {
  import opened Wrappers
  import opened Text
  import opened Api
  import opened Errors

  /** Summary of one recommendation: the record without product id and address. */
  predicate SummarisesRecommendation(s: RecommendationSummary, r: Recommendation) {
    s.recommendationId == r.recommendationId && s.author == r.author && s.rate == r.rate
    && s.content == r.content
  }

  /** Summary of one review: the record without product id and address. */
  predicate SummarisesReview(s: ReviewSummary, r: Review) {
    s.reviewId == r.reviewId && s.author == r.author && s.subject == r.subject && s.content == r.content
  }

  /** The summaries of `rs`, element by element, in order. */
  function RecommendationSummaries(rs: seq<Recommendation>): (ss: seq<RecommendationSummary>)
    ensures |ss| == |rs|
    ensures forall i :: 0 <= i < |rs| ==> SummarisesRecommendation(ss[i], rs[i])
  {
    if |rs| == 0 then []
    else
      var r := rs[0];
      [RecommendationSummary(r.recommendationId, r.author, r.rate, r.content)]
        + RecommendationSummaries(rs[1..])
  }

  /** The summaries of `rs`, element by element, in order. */
  function ReviewSummaries(rs: seq<Review>): (ss: seq<ReviewSummary>)
    ensures |ss| == |rs|
    ensures forall i :: 0 <= i < |rs| ==> SummarisesReview(ss[i], rs[i])
  {
    if |rs| == 0 then []
    else
      var r := rs[0];
      [ReviewSummary(r.reviewId, r.author, r.subject, r.content)] + ReviewSummaries(rs[1..])
  }

  /** `convertRecommendations`: a null list gives no summaries; otherwise one
      summary per recommendation, in the same order. */
  function ConvertRecommendations(rs: Option<seq<Recommendation>>): (ss: seq<RecommendationSummary>)
    ensures rs.None? ==> ss == []
    ensures rs.Some? ==> |ss| == |rs.value|
    ensures rs.Some? ==> forall i :: 0 <= i < |ss| ==> SummarisesRecommendation(ss[i], rs.value[i])
  {
    match rs
    case None => []
    case Some(l) => RecommendationSummaries(l)
  }

  /** `convertReviews`: a null list gives no summaries; otherwise one summary
      per review, in the same order. */
  function ConvertReviews(rs: Option<seq<Review>>): (ss: seq<ReviewSummary>)
    ensures rs.None? ==> ss == []
    ensures rs.Some? ==> |ss| == |rs.value|
    ensures rs.Some? ==> forall i :: 0 <= i < |ss| ==> SummarisesReview(ss[i], rs.value[i])
  {
    match rs
    case None => []
    case Some(l) => ReviewSummaries(l)
  }

  /** The address reported for a list of replies: the first one's, or "". */
  function FirstAddress<T>(rs: seq<T>, address: T -> Address): (a: Address)
    ensures |rs| == 0 ==> a == Some("")
    ensures |rs| > 0 ==> a == address(rs[0])
  {
    if |rs| > 0 then address(rs[0]) else Some("")
  }

  /** `createServiceAddresses`: the composite's own address, the product's
      address, and the address of the first review and of the first
      recommendation, "" where there is none. */
  function CreateServiceAddresses(product: Product, reviews: seq<Review>, recommendations: seq<Recommendation>,
                                  serviceAddress: string): (a: ServiceAddresses)
    ensures a.compositeAddress == Some(serviceAddress)
    ensures a.productAddress == product.serviceAddress
    ensures |reviews| == 0 ==> a.reviewAddress == Some("")
    ensures |reviews| > 0 ==> a.reviewAddress == reviews[0].serviceAddress
    ensures |recommendations| == 0 ==> a.recommendationAddress == Some("")
    ensures |recommendations| > 0 ==> a.recommendationAddress == recommendations[0].serviceAddress
  {
    ServiceAddresses(
      Some(serviceAddress),
      product.serviceAddress,
      FirstAddress(reviews, (r: Review) => r.serviceAddress),
      FirstAddress(recommendations, (r: Recommendation) => r.serviceAddress))
  }

  /** `createProductAggregate`: the product's id, name and weight, the
      summaries of its recommendations and reviews in backend order, and the
      addresses of who answered. */
  function CreateProductAggregate(product: Product, recommendations: seq<Recommendation>, reviews: seq<Review>,
                                  serviceAddress: string): (a: ProductAggregate)
    ensures a.productId == product.productId && a.name == product.name && a.weight == product.weight
    ensures a.recommendations.Some? && |a.recommendations.value| == |recommendations|
    ensures forall i :: 0 <= i < |recommendations| ==>
              SummarisesRecommendation(a.recommendations.value[i], recommendations[i])
    ensures a.reviews.Some? && |a.reviews.value| == |reviews|
    ensures forall i :: 0 <= i < |reviews| ==> SummarisesReview(a.reviews.value[i], reviews[i])
    ensures a.serviceAddresses == CreateServiceAddresses(product, reviews, recommendations, serviceAddress)
  {
    ProductAggregate(
      product.productId, product.name, product.weight,
      Some(ConvertRecommendations(Some(recommendations))),
      Some(ConvertReviews(Some(reviews))),
      CreateServiceAddresses(product, reviews, recommendations, serviceAddress))
  }

  function NoProductFound(productId: int): Error {
    NotFound("No product found for productId: " + IntToString(productId))
  }

  /** `getProduct`: the integration's product read is mandatory, so its
      failure propagates as it is and a missing product is `NotFound`; the
      recommendation and review lists, which the integration never fails to
      deliver, are merged into the aggregate. */
  function GetProduct(productId: Int32, product: Result<Option<Product>, Error>,
                      recommendations: seq<Recommendation>, reviews: seq<Review>,
                      serviceAddress: string): (r: Result<ProductAggregate, Error>)
    ensures product.Failure? ==> r == Failure(product.error)
    ensures product == Success(None) ==> r == Failure(NoProductFound(productId))
    ensures product.Success? && product.value.Some? ==>
              r == Success(CreateProductAggregate(product.value.value, recommendations, reviews, serviceAddress))
  {
    match product
    case Failure(e) => Failure(e)
    case Success(None) => Failure(NoProductFound(productId))
    case Success(Some(p)) => Success(CreateProductAggregate(p, recommendations, reviews, serviceAddress))
  }

  /** One call the composite makes on a backend while writing. */
  datatype Call =
    | CreateProductCall(product: Product)
    | CreateRecommendationCall(recommendation: Recommendation)
    | CreateReviewCall(review: Review)
    | DeleteProductCall(productId: Int32)
    | DeleteRecommendationsCall(productId: Int32)
    | DeleteReviewsCall(productId: Int32)

  /** The product record `createProduct` writes: the aggregate's id, name and
      weight with a null address. */
  function ProductOf(aggregate: ProductAggregate): (p: Product)
    ensures p.productId == aggregate.productId && p.name == aggregate.name && p.weight == aggregate.weight
    ensures p.serviceAddress == None
  {
    Product(aggregate.productId, aggregate.name, aggregate.weight, None)
  }

  /** The recommendation records written for an aggregate, one per summary in
      order, each carrying the aggregate's product id and a null address. */
  function RecommendationsOf(productId: Int32, summaries: seq<RecommendationSummary>): (rs: seq<Recommendation>)
    ensures |rs| == |summaries|
    ensures forall i :: 0 <= i < |rs| ==>
              && SummarisesRecommendation(summaries[i], rs[i])
              && rs[i].productId == productId && rs[i].serviceAddress == None
  {
    if |summaries| == 0 then []
    else
      var s := summaries[0];
      [Recommendation(productId, s.recommendationId, s.author, s.rate, s.content, None)]
        + RecommendationsOf(productId, summaries[1..])
  }

  /** The review records written for an aggregate, one per summary in order. */
  function ReviewsOf(productId: Int32, summaries: seq<ReviewSummary>): (rs: seq<Review>)
    ensures |rs| == |summaries|
    ensures forall i :: 0 <= i < |rs| ==>
              && SummarisesReview(summaries[i], rs[i])
              && rs[i].productId == productId && rs[i].serviceAddress == None
  {
    if |summaries| == 0 then []
    else
      var s := summaries[0];
      [Review(productId, s.reviewId, s.author, s.subject, s.content, None)] + ReviewsOf(productId, summaries[1..])
  }

  function CreateRecommendationCalls(rs: seq<Recommendation>): (cs: seq<Call>)
    ensures |cs| == |rs|
    ensures forall i :: 0 <= i < |rs| ==> cs[i] == CreateRecommendationCall(rs[i])
  {
    if |rs| == 0 then [] else [CreateRecommendationCall(rs[0])] + CreateRecommendationCalls(rs[1..])
  }

  function CreateReviewCalls(rs: seq<Review>): (cs: seq<Call>)
    ensures |cs| == |rs|
    ensures forall i :: 0 <= i < |rs| ==> cs[i] == CreateReviewCall(rs[i])
  {
    if |rs| == 0 then [] else [CreateReviewCall(rs[0])] + CreateReviewCalls(rs[1..])
  }

  /** The summaries of a possibly-null list: a null list contributes no calls. */
  function OrEmpty<T>(l: Option<seq<T>>): seq<T> {
    match l
    case None => []
    case Some(s) => s
  }

  /** The calls `createProduct` makes, in order: the product, then one per
      recommendation summary, then one per review summary. */
  function CreateCalls(aggregate: ProductAggregate): (cs: seq<Call>)
    ensures var recs := RecommendationsOf(aggregate.productId, OrEmpty(aggregate.recommendations));
            var revs := ReviewsOf(aggregate.productId, OrEmpty(aggregate.reviews));
            && |cs| == 1 + |recs| + |revs|
            && cs[0] == CreateProductCall(ProductOf(aggregate))
            && (forall i :: 0 <= i < |recs| ==> cs[1 + i] == CreateRecommendationCall(recs[i]))
            && (forall i :: 0 <= i < |revs| ==> cs[1 + |recs| + i] == CreateReviewCall(revs[i]))
  {
    [CreateProductCall(ProductOf(aggregate))]
      + CreateRecommendationCalls(RecommendationsOf(aggregate.productId, OrEmpty(aggregate.recommendations)))
      + CreateReviewCalls(ReviewsOf(aggregate.productId, OrEmpty(aggregate.reviews)))
  }

  /** The calls `deleteProduct` makes: product, recommendations, reviews. */
  function DeleteCalls(productId: Int32): (cs: seq<Call>)
    ensures |cs| == 3
    ensures cs[0].DeleteProductCall? && cs[1].DeleteRecommendationsCall? && cs[2].DeleteReviewsCall?
    ensures forall i :: 0 <= i < 3 ==> cs[i].productId == productId
  {
    [DeleteProductCall(productId), DeleteRecommendationsCall(productId), DeleteReviewsCall(productId)]
  }

  /** The calls made and how the whole write ended. */
  datatype Trace = Trace(issued: seq<Call>, outcome: Outcome<Error>)

  /** `p` is a prefix of `s`. */
  predicate IsPrefix<T(==)>(p: seq<T>, s: seq<T>) {
    |p| <= |s| && p == s[..|p|]
  }

  /** Makes `calls` one after another on a backend whose answer to a call in
      state `S` is `step`; the first failure is rethrown and nothing after it
      is called, and nothing already done is undone. */
  function Run<S>(state: S, calls: seq<Call>, step: (S, Call) -> (S, Outcome<Error>)): (r: (S, Trace))
    ensures IsPrefix(r.1.issued, calls)
    ensures r.1.outcome.Pass? ==> r.1.issued == calls
    ensures r.1.outcome.Fail? ==> |r.1.issued| > 0
    decreases |calls|
  {
    if |calls| == 0 then (state, Trace([], Pass))
    else
      var first := step(state, calls[0]);
      if first.1.Fail? then (first.0, Trace([calls[0]], first.1))
      else
        var rest := Run(first.0, calls[1..], step);
        (rest.0, Trace([calls[0]] + rest.1.issued, rest.1.outcome))
  }

  /** A run that fails stopped at its first failing call and undid nothing:
      the calls before the last one issued ran without failure, and the
      final state and outcome are those of the last call, made from the state
      the passing calls left. */
  lemma {:induction false} RunStopsAtFirstFailure<S>(state: S, calls: seq<Call>,
                                                     step: (S, Call) -> (S, Outcome<Error>))
    requires Run(state, calls, step).1.outcome.Fail?
    ensures var r := Run(state, calls, step);
            var k := |r.1.issued| - 1;
            && 0 <= k < |calls| && r.1.issued[k] == calls[k]
            && Run(state, calls[..k], step).1 == Trace(calls[..k], Pass)
            && step(Run(state, calls[..k], step).0, calls[k]) == (r.0, r.1.outcome)
    decreases |calls|
  {
    var first := step(state, calls[0]);
    if first.1.Fail? {
      assert calls[..0] == [];
    } else {
      var rest := Run(first.0, calls[1..], step);
      RunStopsAtFirstFailure(first.0, calls[1..], step);
      var k := |rest.1.issued|;
      TakeTail(calls, k);
      var mid := Run(first.0, calls[1..][..k - 1], step);
      assert Run(state, calls[..k], step) == (mid.0, Trace([calls[0]] + calls[1..][..k - 1], Pass));
    }
  }

  lemma TakeTail<T>(s: seq<T>, k: nat)
    requires 0 < k <= |s|
    ensures s[..k][0] == s[0] && s[..k][1..] == s[1..][..k - 1] && [s[0]] + s[1..][..k - 1] == s[..k]
    ensures k < |s| ==> s[1..][k - 1] == s[k]
  {
  }

  /** Once a first call list has succeeded, running a second one after it is
      running their concatenation. */
  lemma {:induction false} RunConcat<S>(state: S, xs: seq<Call>, ys: seq<Call>, step: (S, Call) -> (S, Outcome<Error>))
    requires Run(state, xs, step).1.outcome.Pass?
    ensures var s1 := Run(state, xs, step).0;
            var t2 := Run(s1, ys, step).1;
            Run(state, xs + ys, step) == (Run(s1, ys, step).0, Trace(xs + t2.issued, t2.outcome))
    decreases |xs|
  {
    if |xs| == 0 {
      assert xs + ys == ys;
      assert xs + Run(state, ys, step).1.issued == Run(state, ys, step).1.issued;
    } else {
      var s0 := step(state, xs[0]).0;
      RunConcat(s0, xs[1..], ys, step);
      RunConcatStep(state, xs, ys, step);
    }
  }

  /** The inductive step of `RunConcat`, given its claim for the tail of `xs`. */
  lemma RunConcatStep<S>(state: S, xs: seq<Call>, ys: seq<Call>, step: (S, Call) -> (S, Outcome<Error>))
    requires |xs| > 0 && Run(state, xs, step).1.outcome.Pass?
    requires var s0 := step(state, xs[0]).0;
             var s1 := Run(s0, xs[1..], step).0;
             var t2 := Run(s1, ys, step).1;
             Run(s0, xs[1..] + ys, step) == (Run(s1, ys, step).0, Trace(xs[1..] + t2.issued, t2.outcome))
    ensures var s1 := Run(state, xs, step).0;
            var t2 := Run(s1, ys, step).1;
            Run(state, xs + ys, step) == (Run(s1, ys, step).0, Trace(xs + t2.issued, t2.outcome))
  {
    var s0 := step(state, xs[0]).0;
    var rest := Run(s0, xs[1..], step);
    var t2 := Run(rest.0, ys, step).1;
    ConsConcat(xs, ys);
    ConsConcat(xs, t2.issued);
  }

  /** A concatenation with a non-empty front starts with the front's head,
      and what follows the head is the rest of the front, then the tail. */
  lemma ConsConcat<T>(xs: seq<T>, tail: seq<T>)
    requires |xs| > 0
    ensures (xs + tail)[0] == xs[0] && (xs + tail)[1..] == xs[1..] + tail
    ensures [xs[0]] + (xs[1..] + tail) == xs + tail
  {
    assert xs == [xs[0]] + xs[1..];
  }

  /** An abstract backend: the answers to successive calls, in order; a call
      past the end of the list succeeds. */
  function Replay(replies: seq<Outcome<Error>>, call: Call): (seq<Outcome<Error>>, Outcome<Error>) {
    if |replies| == 0 then ([], Pass) else (replies[1..], replies[0])
  }

  /** Against an abstract backend a write stops at the first failing reply:
      it makes exactly the calls up to and including that one and rethrows
      its failure; with no failing reply it makes every call and succeeds. */
  lemma {:induction false} RunReplay(replies: seq<Outcome<Error>>, calls: seq<Call>)
    ensures var t := Run(replies, calls, Replay).1;
            && (t.outcome.Pass? <==> forall i :: 0 <= i < |calls| && i < |replies| ==> replies[i].Pass?)
            && (t.outcome.Fail? ==>
                  && |t.issued| <= |replies|
                  && t.outcome == replies[|t.issued| - 1]
                  && forall i :: 0 <= i < |t.issued| - 1 ==> replies[i].Pass?)
    decreases |calls|
  {
    if |calls| > 0 && |replies| > 0 {
      RunReplay(replies[1..], calls[1..]);
      var t := Run(replies, calls, Replay).1;
      if replies[0].Pass? {
        var t' := Run(replies[1..], calls[1..], Replay).1;
        assert t.issued == [calls[0]] + t'.issued && t.outcome == t'.outcome;
        assert forall i :: 1 <= i < |calls| && i < |replies| ==> replies[i] == replies[1..][i - 1];
      }
    } else if |calls| > 0 {
      RunWithoutReplies(calls);
    }
  }

  /** With no failing replies left, every call is made and the write succeeds. */
  lemma {:induction false} RunWithoutReplies(calls: seq<Call>)
    ensures Run([], calls, Replay).1 == Trace(calls, Pass)
    decreases |calls|
  {
    if |calls| > 0 {
      RunWithoutReplies(calls[1..]);
      assert [calls[0]] + calls[1..] == calls;
    }
  }

  /** `createProduct` against an abstract backend. */
  function CreateProduct(aggregate: ProductAggregate, replies: seq<Outcome<Error>>): (t: Trace)
    ensures 0 < |t.issued| <= |CreateCalls(aggregate)| && t.issued == CreateCalls(aggregate)[..|t.issued|]
    ensures t.issued[0] == CreateProductCall(ProductOf(aggregate))
    ensures t.outcome.Pass? <==>
              forall i :: 0 <= i < |CreateCalls(aggregate)| && i < |replies| ==> replies[i].Pass?
    ensures t.outcome.Fail? ==> |t.issued| <= |replies| && t.outcome == replies[|t.issued| - 1]
    ensures t.outcome.Fail? ==> forall i :: 0 <= i < |t.issued| - 1 ==> replies[i].Pass?
    ensures t.outcome.Pass? ==> t.issued == CreateCalls(aggregate)
  {
    RunReplay(replies, CreateCalls(aggregate));
    Run(replies, CreateCalls(aggregate), Replay).1
  }

  /** `deleteProduct` against an abstract backend. */
  function DeleteProduct(productId: Int32, replies: seq<Outcome<Error>>): (t: Trace)
    ensures 0 < |t.issued| <= 3 && t.issued == DeleteCalls(productId)[..|t.issued|]
    ensures t.outcome.Pass? <==> forall i :: 0 <= i < 3 && i < |replies| ==> replies[i].Pass?
    ensures t.outcome.Fail? ==> |t.issued| <= |replies| && t.outcome == replies[|t.issued| - 1]
    ensures t.outcome.Fail? ==> forall i :: 0 <= i < |t.issued| - 1 ==> replies[i].Pass?
    ensures t.outcome.Pass? ==> t.issued == DeleteCalls(productId)
  {
    RunReplay(replies, DeleteCalls(productId));
    Run(replies, DeleteCalls(productId), Replay).1
  }

  /** A failing product create aborts the composite create at once: no
      recommendation or review is attempted. */
  lemma ProductFailureStopsCreate(aggregate: ProductAggregate, replies: seq<Outcome<Error>>)
    requires |replies| > 0 && replies[0].Fail?
    ensures CreateProduct(aggregate, replies) == Trace([CreateProductCall(ProductOf(aggregate))], replies[0])
  {
  }

  /** Summarising the records `createProduct` writes gives back the
      aggregate's summaries: the write side and the read side of the
      composite are inverse on the summary lists. */
  lemma {:induction false} RecommendationsRoundTrip(productId: Int32, summaries: seq<RecommendationSummary>)
    ensures RecommendationSummaries(RecommendationsOf(productId, summaries)) == summaries
  {
    var rs := RecommendationsOf(productId, summaries);
    var ss := RecommendationSummaries(rs);
    assert forall i :: 0 <= i < |ss| ==> ss[i] == summaries[i] by {
      forall i | 0 <= i < |ss| ensures ss[i] == summaries[i] {
        assert SummarisesRecommendation(ss[i], rs[i]) && SummarisesRecommendation(summaries[i], rs[i]);
      }
    }
  }

  /** The review counterpart of `RecommendationsRoundTrip`. */
  lemma {:induction false} ReviewsRoundTrip(productId: Int32, summaries: seq<ReviewSummary>)
    ensures ReviewSummaries(ReviewsOf(productId, summaries)) == summaries
  {
    var rs := ReviewsOf(productId, summaries);
    var ss := ReviewSummaries(rs);
    assert forall i :: 0 <= i < |ss| ==> ss[i] == summaries[i] by {
      forall i | 0 <= i < |ss| ensures ss[i] == summaries[i] {
        assert SummarisesReview(ss[i], rs[i]) && SummarisesReview(summaries[i], rs[i]);
      }
    }
  }
}
