/** The product backend: one product per productId, kept in a store whose
    unique index on productId turns a second insert into a duplicate-key
    error. The store is threaded through the operations. */
module ProductService {
  import opened Wrappers
  import opened Text
  import opened Api
  import opened Errors
  import opened Persistence
  import opened Seqs
  import ProductMapper

  /** The product table, in insertion order. */
  type Store = seq<ProductEntity>

  function Key(e: ProductEntity): int { e.productId }

  /** The unique index on productId holds. */
  predicate Valid(store: Store) {
    DistinctKeys(store, Key)
  }

  predicate HasProduct(store: Store, productId: int) {
    exists i :: 0 <= i < |store| && store[i].productId == productId
  }

  function InvalidProductId(productId: int): Error {
    InvalidInput("Invalid productId: " + IntToString(productId))
  }

  function NoProductFound(productId: int): Error {
    NotFound("No product found for productId: " + IntToString(productId))
  }

  function DuplicateKey(productId: int): Error {
    InvalidInput("Duplicate key, Product Id: " + IntToString(productId))
  }

  /** The repository's `findByProductId`: the stored product with that id. */
  function FindByProductId(store: Store, productId: int): (r: Option<ProductEntity>)
    ensures r.Some? ==> r.value in store && r.value.productId == productId
    ensures r.None? <==> !HasProduct(store, productId)
  {
    if |store| == 0 then None
    else if store[0].productId == productId then Some(store[0])
    else
      var r := FindByProductId(store[1..], productId);
      assert HasProduct(store, productId) ==> HasProduct(store[1..], productId) by {
        if HasProduct(store, productId) {
          var i :| 0 <= i < |store| && store[i].productId == productId;
          assert store[1..][i - 1] == store[i];
        }
      }
      r
  }

  /** `getProduct`: ids below 1 are invalid, an absent id is not found, and
      a stored product is returned stamped with this service's address. */
  function GetProduct(store: Store, productId: Int32, serviceAddress: string): (r: Result<Product, Error>)
    requires Valid(store)
    ensures productId < 1 ==> r == Failure(InvalidProductId(productId))
    ensures productId >= 1 && !HasProduct(store, productId) ==> r == Failure(NoProductFound(productId))
    ensures forall i :: 0 <= i < |store| && store[i].productId == productId && productId >= 1 ==>
              r == Success(Product(productId, store[i].name, store[i].weight, Some(serviceAddress)))
  {
    if productId < 1 then Failure(InvalidProductId(productId))
    else match FindByProductId(store, productId)
      case None => Failure(NoProductFound(productId))
      case Some(e) => Success(ProductMapper.EntityToApi(e, Some(serviceAddress)))
  }

  /** `createProduct`: a new id is stored and the input is echoed with this
      service's address; an existing id is a duplicate key and the store is
      left as it was. No productId check is made. */
  function CreateProduct(store: Store, product: Product, serviceAddress: string): (r: (Store, Result<Product, Error>))
    ensures HasProduct(store, product.productId) ==>
              r.0 == store && r.1 == Failure(DuplicateKey(product.productId))
    ensures !HasProduct(store, product.productId) ==>
              && r.0 == store + [ProductEntity(product.productId, product.name, product.weight)]
              && r.1 == Success(product.(serviceAddress := Some(serviceAddress)))
    ensures HasProduct(r.0, product.productId)
    ensures Valid(store) ==> Valid(r.0)
  {
    if HasProduct(store, product.productId) then (store, Failure(DuplicateKey(product.productId)))
    else
      var entity := ProductMapper.ApiToEntity(product);
      ProductMapper.ApiRoundTrip(product, Some(serviceAddress));
      assert Valid(store) ==> Valid(store + [entity]) by {
        if Valid(store) { AppendDistinct(store, entity, Key); }
      }
      assert (store + [entity])[|store|] == entity;
      (store + [entity], Success(ProductMapper.EntityToApi(entity, Some(serviceAddress))))
  }

  function OtherThan(productId: int): ProductEntity -> bool {
    (e: ProductEntity) => e.productId != productId
  }

  /** `deleteProduct`: removes the product with that id if there is one and
      never fails; every other product stays, in order. */
  function DeleteProduct(store: Store, productId: Int32): (r: Store)
    ensures !HasProduct(r, productId)
    ensures forall i :: 0 <= i < |r| ==> r[i] in store
    ensures forall i :: 0 <= i < |store| && store[i].productId != productId ==> store[i] in r
    ensures Valid(store) ==> Valid(r)
  {
    var r := Filter(store, OtherThan(productId));
    assert Valid(store) ==> Valid(r) by {
      if Valid(store) { FilterDistinct(store, OtherThan(productId), Key); }
    }
    r
  }

  /** A created product is found by a following read. */
  lemma CreateThenGet(store: Store, product: Product, serviceAddress: string)
    requires Valid(store) && product.productId >= 1 && !HasProduct(store, product.productId)
    ensures var s := CreateProduct(store, product, serviceAddress).0;
            Valid(s) && GetProduct(s, product.productId, serviceAddress)
                        == Success(product.(serviceAddress := Some(serviceAddress)))
  {
    var s := CreateProduct(store, product, serviceAddress).0;
    assert s[|store|].productId == product.productId;
  }

  /** A second create with the same id fails and changes nothing. */
  lemma CreateTwiceIsDuplicate(store: Store, product: Product, serviceAddress: string)
    ensures var (s1, r1) := CreateProduct(store, product, serviceAddress);
            var (s2, r2) := CreateProduct(s1, product, serviceAddress);
            s2 == s1 && r2 == Failure(DuplicateKey(product.productId))
  {
    var s1 := CreateProduct(store, product, serviceAddress).0;
    if !HasProduct(store, product.productId) {
      assert s1[|store|].productId == product.productId;
    }
  }

  /** Deleting twice is deleting once. */
  lemma DeleteIdempotent(store: Store, productId: Int32)
    ensures DeleteProduct(DeleteProduct(store, productId), productId) == DeleteProduct(store, productId)
  {
    FilterNarrower(store, OtherThan(productId), OtherThan(productId));
  }

  /** After a delete the product is not found. */
  lemma DeleteThenGet(store: Store, productId: Int32, serviceAddress: string)
    requires Valid(store) && productId >= 1
    ensures GetProduct(DeleteProduct(store, productId), productId, serviceAddress)
            == Failure(NoProductFound(productId))
  {
  }

  /** A delete leaves the reads of every other id as they were. */
  lemma DeleteKeepsOthers(store: Store, productId: Int32, other: Int32, serviceAddress: string)
    requires Valid(store) && other != productId
    ensures GetProduct(DeleteProduct(store, productId), other, serviceAddress)
            == GetProduct(store, other, serviceAddress)
  {
    var r := DeleteProduct(store, productId);
    if HasProduct(store, other) {
      var i :| 0 <= i < |store| && store[i].productId == other;
      assert store[i] in r;
    }
  }
}
