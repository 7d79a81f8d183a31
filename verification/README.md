# Product composite gateway, modelled in Dafny

This project models the core of a small Spring Boot microservice system. A
*product composite* service serves a product aggregate: one product, its
recommendations and its reviews, plus the address of every instance that
answered. Three backend services hold the parts. The product service keeps
one product per id. The recommendation service keeps entries keyed by
(productId, recommendationId), and the review service entries keyed by
(productId, reviewId). The composite reaches the backends through an
integration client. Every service turns its exceptions into HTTP error
replies through one shared controller advice.

The model is pure functions over immutable values:

- `Api` and `Persistence` hold the records. A Java `null` is an `Option`.
- `ProductMapper`, `RecommendationMapper` and `ReviewMapper` convert between
  API records and stored entities.
- `ProductService`, `RecommendationService` and `ReviewService` are the
  backends. Each store is a sequence of entities in insertion order, with
  unique keys. Each operation returns the new store and a `Result`.
- `ExceptionHandler` is the controller advice. It maps an exception to a
  status and an error body.
- `Integration` is the composite's client. A backend reply is either a
  possibly-null body or the exception the REST client raised. `Remote`
  describes the reply a backend answer produces through the advice.
- `Composite` is the composite service. A composite write is a plan of
  backend calls. `Run` makes the calls in order and stops at the first
  failure, which is how a thrown exception ends the Java method.
- `CompositeBackends` connects the composite to the three backend models.
  Reads go through the advice and the client. The properties of a whole
  sequence of operations are stated here: create then read, delete then
  read, and delete twice.
- `Wrappers`, `Text`, `Errors` and `Seqs` are support modules: result types,
  decimal formatting of `int` for the exact error messages, the exception
  kinds, and sequence filtering.

Where the code and its documentation differ, the model follows the code:

- The not-found message is `No product found for productId: N`.
- The backends' create and delete operations do not check `productId < 1`.
  Only the reads reject ids below 1.

## Model

| member | source | states |
|---|---|---|
| ProductMapper.EntityToApi | services/product-service/src/main/java/tech/maxjung/microservices/core/product/services/ProductMapper.java:12-14 | The API product carries the entity's id, name and weight, and the address it is given. |
| ProductMapper.ApiToEntity | services/product-service/src/main/java/tech/maxjung/microservices/core/product/services/ProductMapper.java:16-20 | The entity carries the product's id, name and weight; the address is dropped. |
| ProductMapper.ApiRoundTrip | services/product-service/src/test/java/tech/maxjung/microservices/core/product/ProductMapperTest.java:16-29 | Mapping a product to an entity and back returns the product with only its address replaced. |
| ProductMapper.EntityRoundTrip | services/product-service/src/test/java/tech/maxjung/microservices/core/product/ProductMapperTest.java:31-43 | Mapping an entity to a product and back returns the entity unchanged. |
| RecommendationMapper.EntityToApi | services/recommendation-service/src/main/java/tech/maxjung/microservices/core/recommendation/services/RecommendationMapper.java:13-21 | Every field is copied, the entity's `rating` becoming the API `rate`, and the given address is attached. |
| RecommendationMapper.EntitiesToApis | services/recommendation-service/src/main/java/tech/maxjung/microservices/core/recommendation/services/RecommendationMapper.java:23-25 | Same length as the entity list, and element i is the mapping of entity i, so order is kept. |
| RecommendationMapper.ApiToEntity | services/recommendation-service/src/main/java/tech/maxjung/microservices/core/recommendation/services/RecommendationMapper.java:27-30 | Every field but the address is copied, `rate` becoming `rating`. |
| RecommendationMapper.ApiRoundTrip | services/recommendation-service/src/test/java/tech/maxjung/microservices/core/recommendation/RecommendationMapperTest.java:20-27 | API to entity and back returns the recommendation with only its address replaced. |
| RecommendationMapper.EntityRoundTrip | services/recommendation-service/src/test/java/tech/maxjung/microservices/core/recommendation/RecommendationMapperTest.java:58-65 | Entity to API and back returns the entity unchanged. |
| RecommendationMapper.EntitiesToApisConcat | services/recommendation-service/src/test/java/tech/maxjung/microservices/core/recommendation/RecommendationMapperTest.java:38-56 | Mapping a concatenation is concatenating the mappings, so each list position maps independently. |
| ReviewMapper.EntityToApi | services/review-service/src/main/java/tech/maxjung/microservices/core/review/services/ReviewMapper.java:13-21 | Every field is copied and the given address is attached. |
| ReviewMapper.EntitiesToApis | services/review-service/src/main/java/tech/maxjung/microservices/core/review/services/ReviewMapper.java:23-25 | Same length as the entity list, and element i is the mapping of entity i. |
| ReviewMapper.ApiToEntity | services/review-service/src/main/java/tech/maxjung/microservices/core/review/services/ReviewMapper.java:27-29 | Every field but the address is copied. |
| ReviewMapper.ApiRoundTrip | services/review-service/src/main/java/tech/maxjung/microservices/core/review/services/ReviewMapper.java:13-29 | API to entity and back returns the review with only its address replaced. |
| ReviewMapper.EntityRoundTrip | services/review-service/src/test/java/tech/maxjung/microservices/core/review/ReviewMapperTest.java:59-66 | Entity to API and back returns the entity unchanged. |
| ReviewMapper.EntitiesToApisConcat | services/review-service/src/main/java/tech/maxjung/microservices/core/review/services/ReviewMapper.java:23-25 | Mapping a concatenation is concatenating the mappings. |
| ProductService.GetProduct | services/product-service/src/main/java/tech/maxjung/microservices/core/product/services/ProductServiceImpl.java:33-44 | An id below 1 fails with `Invalid productId: N`; an id with no stored product fails with `No product found for productId: N`; otherwise the stored product is returned with this service's address. |
| ProductService.CreateProduct | services/product-service/src/main/java/tech/maxjung/microservices/core/product/services/ProductServiceImpl.java:46-58 | An unused id appends the entity and returns the product with this service's address; a used id fails with `Duplicate key, Product Id: N` and leaves the store as it was; ids stay unique. |
| ProductService.DeleteProduct | services/product-service/src/main/java/tech/maxjung/microservices/core/product/services/ProductServiceImpl.java:60-65 | Afterwards no product has the id, every other product is still stored, nothing new is stored, and it never fails. |
| ProductService.CreateThenGet | services/product-service/src/test/java/tech/maxjung/microservices/core/product/ProductServiceApplicationTests.java:34-40 | A product created under an unused id is found by a following read, with this service's address. |
| ProductService.CreateTwiceIsDuplicate | services/product-service/src/test/java/tech/maxjung/microservices/core/product/ProductServiceApplicationTests.java:43-51 | A second create with the same id fails with the duplicate-key error and changes nothing. |
| ProductService.DeleteIdempotent | services/product-service/src/test/java/tech/maxjung/microservices/core/product/ProductServiceApplicationTests.java:54-64 | Deleting twice leaves the same store as deleting once. |
| ProductService.DeleteThenGet | services/product-service/src/test/java/tech/maxjung/microservices/core/product/ProductServiceApplicationTests.java:54-64 | After a delete, a read of that id is not found. |
| ProductService.DeleteKeepsOthers | services/product-service/src/main/java/tech/maxjung/microservices/core/product/services/ProductServiceImpl.java:60-65 | A delete does not change the read of any other id. |
| RecommendationService.GetRecommendations | services/recommendation-service/src/main/java/tech/maxjung/microservices/core/recommendation/services/RecommendationServiceImpl.java:33-45 | Fails exactly when the id is below 1, with `Invalid productId: N`; otherwise every returned item is a stored recommendation of that product, with this service's address, and every stored recommendation of that product is returned. |
| RecommendationService.CreateRecommendation | services/recommendation-service/src/main/java/tech/maxjung/microservices/core/recommendation/services/RecommendationServiceImpl.java:47-58 | An unused (productId, recommendationId) key is appended and echoed with this address; a used key fails with `Duplicate key (ProductId,RecommendationId): (p, r)` and leaves the store unchanged; keys stay unique. |
| RecommendationService.DeleteRecommendations | services/recommendation-service/src/main/java/tech/maxjung/microservices/core/recommendation/services/RecommendationServiceImpl.java:60-64 | Removes every recommendation of the product and keeps every other one; never fails. |
| RecommendationService.NoneStoredIsEmpty | services/recommendation-service/src/test/java/tech/maxjung/microservices/core/recommendation/RecommendationServiceApplicationTests.java:74-78 | A valid id with nothing stored reads as an empty list, not an error. |
| RecommendationService.CreateThenGet | services/recommendation-service/src/test/java/tech/maxjung/microservices/core/recommendation/RecommendationServiceApplicationTests.java:45-58 | A create appends the new recommendation to the end of its product's read, so reads list recommendations in creation order. |
| RecommendationService.CreateKeepsOtherProducts | services/recommendation-service/src/main/java/tech/maxjung/microservices/core/recommendation/services/RecommendationServiceImpl.java:47-58 | A create for one product does not change the read of another. |
| RecommendationService.CreateTwiceIsDuplicate | services/recommendation-service/src/test/java/tech/maxjung/microservices/core/recommendation/RecommendationServiceApplicationTests.java:89-99 | A second create of the same key fails with a message starting `Duplicate key`, and the store keeps exactly one more entry than before the first. |
| RecommendationService.DeleteThenGet | services/recommendation-service/src/test/java/tech/maxjung/microservices/core/recommendation/RecommendationServiceApplicationTests.java:101-111 | After a delete, the product reads as an empty list. |
| RecommendationService.DeleteKeepsOthers | services/recommendation-service/src/main/java/tech/maxjung/microservices/core/recommendation/services/RecommendationServiceImpl.java:60-64 | A delete does not change the read of any other product. |
| RecommendationService.DeleteIdempotent | services/recommendation-service/src/test/java/tech/maxjung/microservices/core/recommendation/RecommendationServiceApplicationTests.java:110-113 | Deleting twice leaves the same store as deleting once. |
| ReviewService.GetReviews | services/review-service/src/main/java/tech/maxjung/microservices/core/review/services/ReviewServiceImpl.java:33-44 | Fails exactly when the id is below 1, with `Invalid productId: N`; otherwise returns exactly the stored reviews of that product, with this service's address. |
| ReviewService.CreateReview | services/review-service/src/main/java/tech/maxjung/microservices/core/review/services/ReviewServiceImpl.java:46-57 | An unused (productId, reviewId) key is appended and echoed with this address; a used key fails with `Duplicate key (ProductId,ReviewId): (p, r)` and leaves the store unchanged. |
| ReviewService.DeleteReviews | services/review-service/src/main/java/tech/maxjung/microservices/core/review/services/ReviewServiceImpl.java:59-63 | Removes every review of the product and keeps every other one; never fails. |
| ReviewService.NoneStoredIsEmpty | services/review-service/src/test/java/tech/maxjung/microservices/core/review/ReviewServiceApplicationTests.java:99-103 | A valid id with nothing stored reads as an empty list. |
| ReviewService.CreateThenGet | services/review-service/src/test/java/tech/maxjung/microservices/core/review/ReviewServiceApplicationTests.java:43-55 | A create appends the new review to the end of its product's read. |
| ReviewService.CreateKeepsOtherProducts | services/review-service/src/main/java/tech/maxjung/microservices/core/review/services/ReviewServiceImpl.java:46-57 | A create for one product does not change the read of another. |
| ReviewService.CreateTwiceIsDuplicate | services/review-service/src/test/java/tech/maxjung/microservices/core/review/ReviewServiceApplicationTests.java:57-68 | A second create of the same key fails with a message starting `Duplicate key`, and the store keeps one copy. |
| ReviewService.DeleteThenGet | services/review-service/src/test/java/tech/maxjung/microservices/core/review/ReviewServiceApplicationTests.java:70-80 | After a delete, the product reads as an empty list. |
| ReviewService.DeleteKeepsOthers | services/review-service/src/main/java/tech/maxjung/microservices/core/review/services/ReviewServiceImpl.java:59-63 | A delete does not change the read of any other product. |
| ReviewService.DeleteIdempotent | services/review-service/src/test/java/tech/maxjung/microservices/core/review/ReviewServiceApplicationTests.java:79-83 | Deleting twice leaves the same store as deleting once. |
| ExceptionHandler.CreateHttpErrorInfo | util/src/main/java/tech/maxjung/tech.maxjung.util.http/GlobalControllerExceptionHandler.java:50-58 | The error body carries the status, the request path and the exception's message. |
| Text.IntToString | services/product-service/src/main/java/tech/maxjung/microservices/core/product/services/ProductServiceImpl.java:35 | The decimal rendering of a Java `int` (as in `"..." + productId`) denotes the number again, starts with a minus exactly for negatives, and holds only the sign and digits. |
| Text.IntToStringInjective | services/product-service/src/main/java/tech/maxjung/microservices/core/product/services/ProductServiceImpl.java:35 | Different numbers render differently, so a message names its id unambiguously. |
| Text.PairInjective | services/recommendation-service/src/main/java/tech/maxjung/microservices/core/recommendation/services/RecommendationServiceImpl.java:67 | The `"(%d, %d)"` rendering of two numbers determines both. |
| RecommendationService.KeyString | services/recommendation-service/src/main/java/tech/maxjung/microservices/core/recommendation/services/RecommendationServiceImpl.java:66-68 | The key text is the label `(ProductId,RecommendationId): ` followed by the `"(%d, %d)"` pair of the two ids. |
| RecommendationService.KeyStringInjective | services/recommendation-service/src/main/java/tech/maxjung/microservices/core/recommendation/services/RecommendationServiceImpl.java:66-68 | Equal key texts come from equal (productId, recommendationId) keys. |
| RecommendationService.ReadInStoreOrder | services/recommendation-service/src/main/java/tech/maxjung/microservices/core/recommendation/services/RecommendationServiceImpl.java:34-45 | For a valid id, entry k of the read is the product's k-th stored recommendation, with this service's address; the positions taken from the store are strictly increasing and include every entry of the product. |
| ReviewService.KeyString | services/review-service/src/main/java/tech/maxjung/microservices/core/review/services/ReviewServiceImpl.java:65-67 | The key text is the label `(ProductId,ReviewId): ` followed by the `"(%d, %d)"` pair of the two ids. |
| ReviewService.KeyStringInjective | services/review-service/src/main/java/tech/maxjung/microservices/core/review/services/ReviewServiceImpl.java:65-67 | Equal key texts come from equal (productId, reviewId) keys. |
| ReviewService.ReadInStoreOrder | services/review-service/src/main/java/tech/maxjung/microservices/core/review/services/ReviewServiceImpl.java:34-44 | For a valid id, entry k of the read is the product's k-th stored review, with this service's address; the positions taken from the store are strictly increasing and include every entry of the product. |
| ExceptionHandler.Handle | util/src/main/java/tech/maxjung/tech.maxjung.util.http/GlobalControllerExceptionHandler.java:26-48 | Exactly BadRequest, InvalidInput and NotFound are handled, with 400, 422 and 404 respectively, and the body repeats the status, path and message. |
| ExceptionHandler.StatusDeterminesKind | util/src/main/java/tech/maxjung/tech.maxjung.util.http/GlobalControllerExceptionHandler.java:26-48 | Two handled exceptions with the same status are of the same kind. |
| Integration.ErrorMessage | services/product-comp-service/src/main/java/tech/maxjung/microservices/composite/product/services/ProductCompositeIntegration.java:161-167 | The message of the parsed error body, or the exception's own message when the body does not parse. |
| Integration.TranslateClientErrorAsWritten | services/product-comp-service/src/main/java/tech/maxjung/microservices/composite/product/services/ProductCompositeIntegration.java:78-92 | For a code Spring's enum lacks, the result is a null dereference; for every known code it is the intended translation. |
| Integration.TranslateClientError | services/product-comp-service/src/main/java/tech/maxjung/microservices/composite/product/services/ProductCompositeIntegration.java:78-92 | 404 becomes NotFound and 422 becomes InvalidInput, each with the extracted message; any other client error is rethrown unchanged. |
| Integration.UnknownStatusIsNotRethrown | services/product-comp-service/src/main/java/tech/maxjung/microservices/composite/product/services/ProductCompositeIntegration.java:81-91 | A 499 reply gives a null dereference as written, where the intended translation rethrows it. |
| Integration.AsWrittenAgreesOnKnownStatus | services/product-comp-service/src/main/java/tech/maxjung/microservices/composite/product/services/ProductCompositeIntegration.java:81-91 | On every status Spring knows, the switch as written and as intended agree. |
| Integration.GetProduct | services/product-comp-service/src/main/java/tech/maxjung/microservices/composite/product/services/ProductCompositeIntegration.java:67-94 | A body is returned; a null body fails on dereference; a client error is translated; any other failure passes through. |
| Integration.GetRecommendations | services/product-comp-service/src/main/java/tech/maxjung/microservices/composite/product/services/ProductCompositeIntegration.java:106-128 | A non-null body is returned as it is; any failure or a null body gives the empty list. |
| Integration.GetReviews | services/product-comp-service/src/main/java/tech/maxjung/microservices/composite/product/services/ProductCompositeIntegration.java:140-158 | A non-null body is returned as it is; any failure or a null body gives the empty list. |
| Integration.CreateProduct | services/product-comp-service/src/main/java/tech/maxjung/microservices/composite/product/services/ProductCompositeIntegration.java:96-99 | Always fails with NotImplemented. |
| Integration.DeleteProduct | services/product-comp-service/src/main/java/tech/maxjung/microservices/composite/product/services/ProductCompositeIntegration.java:101-104 | Always fails with NotImplemented. |
| Integration.CreateRecommendation | services/product-comp-service/src/main/java/tech/maxjung/microservices/composite/product/services/ProductCompositeIntegration.java:130-133 | Always fails with NotImplemented. |
| Integration.DeleteRecommendations | services/product-comp-service/src/main/java/tech/maxjung/microservices/composite/product/services/ProductCompositeIntegration.java:135-138 | Always fails with NotImplemented. |
| Integration.Remote | util/src/main/java/tech/maxjung/tech.maxjung.util.http/GlobalControllerExceptionHandler.java:26-58 | What the client receives from a backend: a success as a body; a handled exception as a client error with the handler's status and body; anything else as a server error. |
| Integration.HandlerRoundTrip | services/product-comp-service/src/main/java/tech/maxjung/microservices/composite/product/services/ProductCompositeIntegration.java:80-87 | Translation undoes the handler: a NotFound or InvalidInput thrown by a backend reaches the composite with the same kind and message, and keeps its kind without a parseable body. |
| Integration.BadRequestNotInverted | services/product-comp-service/src/main/java/tech/maxjung/microservices/composite/product/services/ProductCompositeIntegration.java:88-91 | A 400 reply is not mapped back to BadRequest but rethrown as the client error. |
| Integration.GetProductOverHttp | services/product-comp-service/src/main/java/tech/maxjung/microservices/composite/product/services/ProductCompositeIntegration.java:67-94 | Across the handler and the client, a backend's product, NotFound or InvalidInput reaches the composite unchanged. |
| Composite.ConvertRecommendations | services/product-comp-service/src/main/java/tech/maxjung/microservices/composite/product/services/ProductCompositeServiceImpl.java:103-109 | A null list gives no summaries; otherwise one summary per recommendation, in order, carrying its id, author, rate and content. |
| Composite.ConvertReviews | services/product-comp-service/src/main/java/tech/maxjung/microservices/composite/product/services/ProductCompositeServiceImpl.java:111-117 | A null list gives no summaries; otherwise one summary per review, in order. |
| Composite.CreateServiceAddresses | services/product-comp-service/src/main/java/tech/maxjung/microservices/composite/product/services/ProductCompositeServiceImpl.java:119-125 | The composite's own address, the product's address, and the address of the first review and first recommendation, or the empty string when there is none. |
| Composite.CreateProductAggregate | services/product-comp-service/src/main/java/tech/maxjung/microservices/composite/product/services/ProductCompositeServiceImpl.java:81-100 | Id, name and weight come from the product; the summary lists match the backend lists element by element; the addresses are as above. |
| Composite.GetProduct | services/product-comp-service/src/main/java/tech/maxjung/microservices/composite/product/services/ProductCompositeServiceImpl.java:29-40 | A failing product read propagates unchanged; a missing product is `No product found for productId: N`; otherwise the aggregate is built from whatever lists the integration returned. |
| Composite.ProductOf | services/product-comp-service/src/main/java/tech/maxjung/microservices/composite/product/services/ProductCompositeServiceImpl.java:47 | The product written carries the aggregate's id, name and weight and a null address. |
| Composite.RecommendationsOf | services/product-comp-service/src/main/java/tech/maxjung/microservices/composite/product/services/ProductCompositeServiceImpl.java:50-56 | One recommendation per summary, in order, each with the aggregate's product id and a null address. |
| Composite.ReviewsOf | services/product-comp-service/src/main/java/tech/maxjung/microservices/composite/product/services/ProductCompositeServiceImpl.java:58-64 | One review per summary, in order, each with the aggregate's product id and a null address. |
| Composite.CreateCalls | services/product-comp-service/src/main/java/tech/maxjung/microservices/composite/product/services/ProductCompositeServiceImpl.java:43-65 | The product create first, then one create per recommendation summary, then one per review summary; a null list adds none. |
| Composite.DeleteCalls | services/product-comp-service/src/main/java/tech/maxjung/microservices/composite/product/services/ProductCompositeServiceImpl.java:74-79 | Product, recommendations, reviews, in that order, all for the same id. |
| Composite.Run | services/product-comp-service/src/main/java/tech/maxjung/microservices/composite/product/services/ProductCompositeServiceImpl.java:43-72 | The calls made are a prefix of the plan, all of it when the run succeeds, and at least one when it fails. |
| Composite.RunStopsAtFirstFailure | services/product-comp-service/src/main/java/tech/maxjung/microservices/composite/product/services/ProductCompositeServiceImpl.java:43-72 | A failed run stopped at its first failing call: the calls before it all ran without failure, and the reported failure and final state are that call's. |
| Composite.RunConcat | services/product-comp-service/src/main/java/tech/maxjung/microservices/composite/product/services/ProductCompositeServiceImpl.java:43-72 | Running two plans one after the other, the first succeeding, is running their concatenation. |
| Composite.RunReplay | services/product-comp-service/src/main/java/tech/maxjung/microservices/composite/product/services/ProductCompositeServiceImpl.java:68-71 | With replies given per call, the run stops at the first failing reply and reports exactly that failure. |
| Composite.RunWithoutReplies | services/product-comp-service/src/main/java/tech/maxjung/microservices/composite/product/services/ProductCompositeServiceImpl.java:43-72 | Against a backend with no failing reply left, every call of the plan is made and the write succeeds. |
| Composite.CreateProduct | services/product-comp-service/src/main/java/tech/maxjung/microservices/composite/product/services/ProductCompositeServiceImpl.java:42-72 | The calls made are a prefix of the create plan starting with the product; it succeeds exactly when no reply of the plan fails, and then every call of the plan was made; otherwise it reports the first failing reply, every earlier call having passed. |
| Composite.DeleteProduct | services/product-comp-service/src/main/java/tech/maxjung/microservices/composite/product/services/ProductCompositeServiceImpl.java:74-79 | The calls made are a prefix of the three deletes; it succeeds exactly when none of the three fails, and then all three were made; otherwise it reports the first failing reply, every earlier call having passed. |
| Composite.ProductFailureStopsCreate | services/product-comp-service/src/main/java/tech/maxjung/microservices/composite/product/services/ProductCompositeServiceImpl.java:47-48 | When the product create fails, nothing else is created and that failure is reported. |
| Composite.RecommendationsRoundTrip | services/product-comp-service/src/main/java/tech/maxjung/microservices/composite/product/services/ProductCompositeServiceImpl.java:50-56 | Summarising the recommendations written for an aggregate gives back its summaries. |
| Composite.ReviewsRoundTrip | services/product-comp-service/src/main/java/tech/maxjung/microservices/composite/product/services/ProductCompositeServiceImpl.java:58-64 | Summarising the reviews written for an aggregate gives back its summaries. |
| CompositeBackends.Apply | services/product-comp-service/src/main/java/tech/maxjung/microservices/composite/product/services/ProductCompositeServiceImpl.java:43-79 | Each write call changes only the store of the backend it names and keeps the stores valid; a create passes exactly when its key is unused and leaves the key stored either way; a failure is InvalidInput and changes nothing; a delete passes and leaves no entry for the id. |
| CompositeBackends.CreateComposite | services/product-comp-service/src/main/java/tech/maxjung/microservices/composite/product/services/ProductCompositeServiceImpl.java:43-72 | Against the backends, the calls made are a prefix of the create plan, starting with the product, and all of the plan when the write succeeds. |
| CompositeBackends.DeleteComposite | services/product-comp-service/src/main/java/tech/maxjung/microservices/composite/product/services/ProductCompositeServiceImpl.java:74-79 | Against the backends, all three deletes are made, none fails, and each backend is left without that product's entries. |
| CompositeBackends.GetComposite | services/product-comp-service/src/main/java/tech/maxjung/microservices/composite/product/services/ProductCompositeServiceImpl.java:29-40 | The composite read through the handlers and the client answers for the requested id. |
| CompositeBackends.GetCompositeInvalidId | services/product-service/src/main/java/tech/maxjung/microservices/core/product/services/ProductServiceImpl.java:34-35 | A composite read of an id below 1 fails with the product backend's `Invalid productId: N`. |
| CompositeBackends.GetCompositeNotFound | services/product-service/src/main/java/tech/maxjung/microservices/core/product/services/ProductServiceImpl.java:41-43 | A composite read of an absent product fails with `No product found for productId: N`. |
| CompositeBackends.DeleteCompositeIdempotent | services/product-comp-service/src/main/java/tech/maxjung/microservices/composite/product/services/ProductCompositeServiceImpl.java:74-79 | A second composite delete succeeds and changes nothing. |
| CompositeBackends.CreateCompositeKeepsProduct | services/product-comp-service/src/main/java/tech/maxjung/microservices/composite/product/services/ProductCompositeServiceImpl.java:47-71 | A composite create for an unused id leaves the product stored even when a later recommendation or review create fails, and such a failure comes after the product call; nothing is rolled back. |
| CompositeBackends.ChildCreatesKeepProducts | services/product-comp-service/src/main/java/tech/maxjung/microservices/composite/product/services/ProductCompositeServiceImpl.java:50-64 | Recommendation and review creates never change the product store. |
| CompositeBackends.DuplicateProductAbortsCreate | services/product-comp-service/src/main/java/tech/maxjung/microservices/composite/product/services/ProductCompositeServiceImpl.java:43-71 | Creating a composite whose product exists fails with `Duplicate key, Product Id: N`, makes no other call and changes nothing. |
| CompositeBackends.RunRecommendationCreates | services/product-comp-service/src/main/java/tech/maxjung/microservices/composite/product/services/ProductCompositeServiceImpl.java:50-56 | Creating fresh recommendations for one product succeeds, touches no other store, and appends them in order to that product's read. |
| CompositeBackends.RunReviewCreates | services/product-comp-service/src/main/java/tech/maxjung/microservices/composite/product/services/ProductCompositeServiceImpl.java:58-64 | Creating fresh reviews for one product succeeds, touches no other store, and appends them in order to that product's read. |
| CompositeBackends.CreateCompositeSucceeds | services/product-comp-service/src/main/java/tech/maxjung/microservices/composite/product/services/ProductCompositeServiceImpl.java:43-72 | For an unused id and distinct summary ids, every call is made without failure, and each backend then reads back exactly what was written. |
| CompositeBackends.GetCompositeWhenAllAnswer | services/product-comp-service/src/main/java/tech/maxjung/microservices/composite/product/services/ProductCompositeServiceImpl.java:29-40 | When every backend answers the read, the composite read is the aggregate built from those three answers. |
| CompositeBackends.CreateThenGet | services/product-comp-service/src/main/java/tech/maxjung/microservices/composite/product/services/ProductCompositeServiceImpl.java:29-125 | A composite read after a composite create returns the aggregate written, null lists as empty lists, with the instances' addresses. |
| CompositeBackends.DeleteThenGet | services/product-comp-service/src/main/java/tech/maxjung/microservices/composite/product/services/ProductCompositeServiceImpl.java:74-79 | After a composite delete, the composite read is not found and the id is unused in every backend. |
| CompositeBackends.WritesThroughIntegrationFail | services/product-comp-service/src/main/java/tech/maxjung/microservices/composite/product/services/ProductCompositeIntegration.java:96-104 | As wired, a composite create or delete fails on its first call with the stub's NotImplemented error and makes no other call. |

## Left out

- HTTP transport, JSON encoding and decoding, and URL building are not
  modelled. A backend reply is given as a value, and the error body is
  either parsed or not (`Option<HttpErrorInfo>`).
- Logging, the service-address lookup and timestamps are left out. The
  address is a parameter.
- Persistence ids and version fields, MongoDB and JPA, and the repository
  queries are left out. A store is a sequence, and `findByProductId` is a
  filter over it.
- Concurrency between requests is not modelled. Each operation is atomic on
  the value it is given.
- The text of a Spring client exception is modelled only as its status code.
  `String.format("%d")` is modelled as plain decimal, without locale digits.
- `ReviewSummary.java` declares three fields, but the composite builds it
  with four (content included). The model uses the four-field shape that the
  composite code relies on.
- The integration has no `createReview` or `deleteReviews`, although the
  composite calls them. The composite is therefore modelled against an
  abstract backend (`Composite.CreateProduct`, `Composite.DeleteProduct`) and
  against the backend models (`CompositeBackends`). The wiring to the
  integration's stubs is stated only for the product call, which comes first
  and fails.
- Integration.GetProduct: a null product body fails with a null dereference
  (the debug log at line 74 reads it), so the composite's own null check is
  never reached through this client. `Composite.GetProduct` still models
  that check.
- Integration.GetProduct: uses the corrected translation. For a 4xx status
  Spring's enum lacks, such as 499, the model rethrows the client error,
  where the code as written throws a null dereference at line 81 (see
  Findings; `TranslateClientErrorAsWritten` models the code as written).
- ReviewService.CreateReview: only the unique-key violation is modelled. The
  code catches any `DataIntegrityViolationException` (ReviewServiceImpl.java
  line 54), so another integrity violation would also be reported with the
  duplicate-key message.
- Integration.GetRecommendations and Integration.GetReviews: a null body
  fails at the `size()` call and is caught, so it reads as an empty list, as
  any other failure does.
- Integration.IsKnownClientStatus: the set of 4xx codes that
  `HttpStatus.resolve` knows depends on the Spring version. The model takes
  400 to 426, 428, 429, 431 and 451.
- RecommendationService.GetRecommendations: the contract states membership in both directions; store order is stated apart, by `RecommendationService.ReadInStoreOrder` (entries come in increasing store position) and `RecommendationService.CreateThenGet` (a create appends at the end of the read).
- ReviewService.GetReviews: as for recommendations, store order is stated apart, by `ReviewService.ReadInStoreOrder` and `ReviewService.CreateThenGet`.
- CompositeBackends.CreateThenGet: stated only for an id unused in every
  backend and for summaries with distinct ids. With a colliding id, the
  write stops at the duplicate, as `DuplicateProductAbortsCreate` states for
  the product.
- The `ServiceAddresses.empty()` helper, the application classes and the
  OpenAPI annotations are not part of this model.

## Findings

| source | as written | input that shows it | evidently intended | confidence | as-written member | corrected member |
|---|---|---|---|---|---|---|
| services/product-comp-service/src/main/java/tech/maxjung/microservices/composite/product/services/ProductCompositeIntegration.java:81-91 | `switch (HttpStatus.resolve(code))` dereferences the result of `resolve`, which is null for a status code the enum lacks | a product backend reply with status 499 | every client error other than 404 and 422 is rethrown as it is (the `default` branch) | medium; not executed | Integration.TranslateClientErrorAsWritten | Integration.TranslateClientError |
