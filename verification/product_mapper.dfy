/** Field copies between the product API record and its entity. */
module ProductMapper {
  import opened Api
  import opened Persistence

  /** The API view of a stored product, stamped with `serviceAddress`. */
  function EntityToApi(entity: ProductEntity, serviceAddress: Address): (p: Product)
    ensures p.productId == entity.productId && p.name == entity.name && p.weight == entity.weight
    ensures p.serviceAddress == serviceAddress
  {
    Product(entity.productId, entity.name, entity.weight, serviceAddress)
  }

  /** The entity to store for an API product; its address is dropped. */
  function ApiToEntity(api: Product): (e: ProductEntity)
    ensures e.productId == api.productId && e.name == api.name && e.weight == api.weight
  {
    ProductEntity(api.productId, api.name, api.weight)
  }

  /** Storing a product and reading it back only replaces its address. */
  lemma ApiRoundTrip(api: Product, serviceAddress: Address)
    ensures EntityToApi(ApiToEntity(api), serviceAddress) == api.(serviceAddress := serviceAddress)
  {
  }

  /** An entity survives a trip through the API view unchanged. */
  lemma EntityRoundTrip(entity: ProductEntity, serviceAddress: Address)
    ensures ApiToEntity(EntityToApi(entity, serviceAddress)) == entity
  {
  }
}
