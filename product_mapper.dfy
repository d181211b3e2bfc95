/** ProductMapper: field-by-field copies between ProductDTO and Product behind
    a null check. The brand goes through the brand mapper, the categories are
    handed over unchanged, and the wishlists are never carried. */
module ProductMapper {
  import opened Common
  import opened Model
  import BrandMapper

  /** The scalar fields both conversions copy unchanged. */
  predicate SameScalars(d: ProductDto, p: Product)
  {
    && d.id == p.id
    && d.name == p.name
    && d.description == p.description
    && d.price == p.price
    && d.dateOfManufacture == p.dateOfManufacture
    && d.dateOfExpire == p.dateOfExpire
    && d.quantity == p.quantity
  }

  /** The builder expression of convertProductDTOToProduct. */
  function ProductFromDto(d: ProductDto): Product
  {
    Product(d.id, false, d.quantity, d.price, d.dateOfExpire, d.dateOfManufacture,
            d.description, d.name, BrandMapper.ConvertBrandDtoToBrand(d.brand),
            d.category, d.subCategory, None)
  }

  /** The builder expression of convertProductToProductDTO. */
  function ProductToDto(p: Product): ProductDto
  {
    ProductDto(p.id, p.quantity, p.price, p.dateOfExpire, p.dateOfManufacture,
               p.description, p.name, BrandMapper.ConvertBrandToBrandDto(p.brand),
               p.category, p.subCategory, None)
  }

  /** convertProductDTOToProduct: null in, null out; otherwise a product that
      is not deleted, holds the DTO's scalars, and no wishlists. */
  function ConvertProductDtoToProduct(d: Option<ProductDto>): (r: Option<Product>)
    ensures r.None? <==> d.None?
    ensures d.Some? ==> SameScalars(d.value, r.value) && !r.value.deleted && r.value.wishlists.None?
  {
    match d
    case None => None
    case Some(dto) => Some(ProductFromDto(dto))
  }

  /** convertProductToProductDTO: null in, null out; otherwise a DTO that holds
      the product's scalars and no wishlists. */
  function ConvertProductToProductDto(p: Option<Product>): (r: Option<ProductDto>)
    ensures r.None? <==> p.None?
    ensures p.Some? ==> SameScalars(r.value, p.value) && r.value.wishlists.None?
  {
    match p
    case None => None
    case Some(entity) => Some(ProductToDto(entity))
  }

  /** A DTO converted to a product and back is the same DTO, except that its
      wishlists are gone. */
  lemma ProductRoundTrip(d: ProductDto)
    ensures ConvertProductToProductDto(ConvertProductDtoToProduct(Some(d))) == Some(d.(wishlists := None))
  {
  }

  /** A product converted to a DTO and back keeps its scalars and its brand's id
      and name, but loses its deleted flag (and its brand's) and its wishlists. */
  lemma ProductEntityRoundTrip(p: Product)
    ensures var q := ConvertProductDtoToProduct(ConvertProductToProductDto(Some(p))).value;
      && SameScalars(ProductToDto(p), q)
      && !q.deleted && q.wishlists.None?
      && q.category == p.category && q.subCategory == p.subCategory
      && (q.brand.None? <==> p.brand.None?)
      && (p.brand.Some? ==> q.brand.value == p.brand.value.(deleted := false))
  {
  }
}
