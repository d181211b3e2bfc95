/** ProductServiceImpl: products and brands over two soft-deleted tables. A
    product is added only when it is manufactured strictly before it expires,
    is re-saved rather than duplicated when its name and description are
    already stored, and is handed to the stock service; brand names are kept
    unique; reads treat a deleted row as missing. */
module ProductService {
  import opened Common
  import opened Model
  import opened Tables
  import opened ProductMapper
  import BrandMapper

  /** The columns a save writes: quantity and both dates are transient. */
  function Persisted(p: Product): (q: Product)
    ensures q.quantity.None? && q.dateOfExpire.None? && q.dateOfManufacture.None?
    ensures q.(quantity := p.quantity, dateOfExpire := p.dateOfExpire, dateOfManufacture := p.dateOfManufacture) == p
  {
    p.(quantity := None, dateOfExpire := None, dateOfManufacture := None)
  }

  predicate IsLiveProduct(p: Product) { !p.deleted }

  predicate IsLiveBrand(b: Brand) { !b.deleted }

  /** The key of findByNameAndDescription. */
  function NameAndDescription(p: Product): (string, string) { (p.name, p.description) }

  /** The key of findByName. */
  function BrandName(b: Brand): string { b.name }

  /** Brand.name is a unique column. */
  ghost predicate UniqueNames(rows: seq<Brand>)
  {
    forall i, j :: 0 <= i < j < |rows| ==> rows[i].name != rows[j].name
  }

  /** Every stored product holds only its persisted columns. */
  ghost predicate OnlyColumns(rows: seq<Product>)
  {
    forall i :: 0 <= i < |rows| ==> Persisted(rows[i]) == rows[i]
  }

  /** The save addProduct makes once the dates are in order: the stored product
      with the same name and description (deleted or not) is saved again as it
      is; otherwise the converted input is saved. */
  function AddProductSave(t: Table<Product>, product: ProductDto): (Table<Product>, Product)
  {
    match FindFirst(t.rows, NameAndDescription, (product.name, product.description))
    case Some(existing) => Save(t, existing, ProductId, ProductWithId)
    case None => Save(t, Persisted(ProductFromDto(product)), ProductId, ProductWithId)
  }

  /** The product addProduct passes to stock creation and returns: the saved
      row as a DTO, carrying the caller's quantity and dates whatever the store
      returned, and the caller's name and description. */
  function AddedProduct(t: Table<Product>, product: ProductDto): (r: ProductDto)
    ensures r.quantity == product.quantity
    ensures r.dateOfManufacture == product.dateOfManufacture && r.dateOfExpire == product.dateOfExpire
    ensures r.name == product.name && r.description == product.description
  {
    var stored := AddProductSave(t, product).1;
    ProductToDto(stored).(dateOfManufacture := product.dateOfManufacture,
                          dateOfExpire := product.dateOfExpire,
                          quantity := product.quantity)
  }

  /** When a product with the same name and description is stored, addProduct
      writes nothing new: the table is unchanged and the returned product is
      that row. Otherwise, for an input whose id is null or not stored, exactly
      one row is appended: the input's columns under a generated id. */
  lemma AddProductSaveEffect(t: Table<Product>, product: ProductDto)
    requires WellKeyed(t, ProductId)
    ensures var existing := FindFirst(t.rows, NameAndDescription, (product.name, product.description));
      existing.Some? ==> AddProductSave(t, product) == (t, existing.value)
    ensures var existing := FindFirst(t.rows, NameAndDescription, (product.name, product.description));
      existing.None? && (forall j :: 0 <= j < |t.rows| ==> t.rows[j].id != product.id || product.id.None?) ==>
        AddProductSave(t, product).0.rows == t.rows + [Persisted(ProductFromDto(product)).(id := Some(t.nextId))]
  {
    var existing := FindFirst(t.rows, NameAndDescription, (product.name, product.description));
    if existing.Some? {
      var i := FirstIndex(t.rows, NameAndDescription, (product.name, product.description)).value;
      SaveReplaces(t, t.rows[i], ProductId, ProductWithId, i);
      assert t.rows[i := t.rows[i]] == t.rows;
    } else if forall j :: 0 <= j < |t.rows| ==> t.rows[j].id != product.id || product.id.None? {
      SaveAppends(t, Persisted(ProductFromDto(product)), ProductId, ProductWithId);
    }
  }

  /** The non-deleted rows, in store order, as DTOs: what getAll returns. */
  function AvailableProducts(rows: seq<Product>): seq<ProductDto>
  {
    MapSeq(Filter(rows, IsLiveProduct), ProductToDto)
  }

  /** The non-deleted brands, in store order, as DTOs: what getAllBrands returns. */
  function AvailableBrands(rows: seq<Brand>): seq<BrandDto>
  {
    MapSeq(Filter(rows, IsLiveBrand), BrandMapper.BrandToDto)
  }

  /** getAll lists every stored product that is not deleted and none that is,
      and appending rows to the store appends their listing. */
  lemma AvailableProductsExact(rows: seq<Product>, more: seq<Product>, p: Product)
    ensures p in Filter(rows, IsLiveProduct) <==> p in rows && !p.deleted
    ensures AvailableProducts(rows + more) == AvailableProducts(rows) + AvailableProducts(more)
  {
    FilterMembership(rows, IsLiveProduct, p);
    FilterAppend(rows, more, IsLiveProduct);
    MapSeqAppend(Filter(rows, IsLiveProduct), Filter(more, IsLiveProduct), ProductToDto);
  }

  /** getAllBrands lists every stored brand that is not deleted and none that
      is; with no live brand the list is empty. */
  lemma AvailableBrandsExact(rows: seq<Brand>, b: Brand)
    ensures b in Filter(rows, IsLiveBrand) <==> b in rows && !b.deleted
    ensures AvailableBrands(rows) == [] <==> forall i :: 0 <= i < |rows| ==> rows[i].deleted
  {
    FilterMembership(rows, IsLiveBrand, b);
    if AvailableBrands(rows) == [] {
      forall i | 0 <= i < |rows|
        ensures rows[i].deleted
      {
        FilterMembership(rows, IsLiveBrand, rows[i]);
      }
    } else {
      var first := Filter(rows, IsLiveBrand)[0];
      FilterMembership(rows, IsLiveBrand, first);
    }
  }

  class ProductServiceImpl {
    /** productRepository's table. */
    var products: Table<Product>
    /** brandRepository's table. */
    var brands: Table<Brand>
    /** The products handed to stockService.addStock, in call order. */
    var stockRequests: seq<Product>

    ghost predicate Valid()
      reads this
    {
      && WellKeyed(products, ProductId)
      && WellKeyed(brands, BrandId)
      && OnlyColumns(products.rows)
      && UniqueNames(brands.rows)
    }

    constructor (firstProductId: int, firstBrandId: int)
      ensures Valid()
      ensures products == Table([], firstProductId) && brands == Table([], firstBrandId)
      ensures stockRequests == []
    {
      products := Table([], firstProductId);
      brands := Table([], firstBrandId);
      stockRequests := [];
    }

    /** addProduct. `stockAdded` is whether the stock service returns a stock
        for the product; the stock service is not part of this model. The
        caller's quantity and dates must not be null (the source unboxes and
        compares them). */
    method AddProduct(product: ProductDto, stockAdded: bool) returns (r: Result<ProductDto>)
      requires Valid()
      requires product.quantity.Some?
      requires product.dateOfManufacture.Some? && product.dateOfExpire.Some?
      modifies this
      ensures Valid() && brands == old(brands)
      ensures !(product.dateOfManufacture.value < product.dateOfExpire.value) ==>
        && r == Err(InvalidInput(InvalidManufactureExpiryDate))
        && products == old(products) && stockRequests == old(stockRequests)
      ensures product.dateOfManufacture.value < product.dateOfExpire.value ==>
        && products == AddProductSave(old(products), product).0
        && stockRequests == old(stockRequests) + [ProductFromDto(AddedProduct(old(products), product))]
        && r == (if stockAdded then Ok(AddedProduct(old(products), product))
                 else Err(ResourcePersistence(StockCreationFailed)))
    {
      var quantity := product.quantity;
      var dateOfManufacture := product.dateOfManufacture;
      var dateOfExpire := product.dateOfExpire;
      if !(dateOfManufacture.value < dateOfExpire.value) {
        return Err(InvalidInput(InvalidManufactureExpiryDate));
      }
      var createdProduct := FindFirst(products.rows, NameAndDescription, (product.name, product.description));
      var row := if createdProduct.Some? then createdProduct.value else Persisted(ProductFromDto(product));
      SaveKeepsKeys(products, row, ProductId, ProductWithId);
      SaveKeepsColumns(products, row);
      var (table, saved) := Save(products, row, ProductId, ProductWithId);
      products := table;
      var dto := ConvertProductToProductDto(Some(saved)).value;
      dto := dto.(dateOfManufacture := dateOfManufacture, dateOfExpire := dateOfExpire, quantity := quantity);
      r := CreateStockForProduct(Some(dto), stockAdded);
    }

    /** Saving a row that holds only columns keeps every stored row that way. */
    static lemma SaveKeepsColumns(t: Table<Product>, row: Product)
      requires OnlyColumns(t.rows) && Persisted(row) == row
      ensures OnlyColumns(Save(t, row, ProductId, ProductWithId).0.rows)
    {
      var t' := Save(t, row, ProductId, ProductWithId).0;
      forall i | 0 <= i < |t'.rows|
        ensures Persisted(t'.rows[i]) == t'.rows[i]
      {
        if i < |t.rows| && t'.rows[i] != t.rows[i] {
          assert t'.rows[i] == row;
        }
      }
    }

    /** createStockForProduct: a null product fails before the stock service is
        called; otherwise the product goes to the stock service, and comes back
        unchanged when the service returns a stock. */
    method CreateStockForProduct(product: Option<ProductDto>, stockAdded: bool) returns (r: Result<ProductDto>)
      modifies this`stockRequests
      ensures product.None? ==>
        r == Err(ResourcePersistence(ProductCreationFailed)) && stockRequests == old(stockRequests)
      ensures product.Some? ==>
        && stockRequests == old(stockRequests) + [ProductFromDto(product.value)]
        && r == (if stockAdded then Ok(product.value) else Err(ResourcePersistence(StockCreationFailed)))
    {
      if product.Some? {
        stockRequests := stockRequests + [ConvertProductDtoToProduct(product).value];
        if stockAdded {
          r := Ok(product.value);
        } else {
          r := Err(ResourcePersistence(StockCreationFailed));
        }
      } else {
        r := Err(ResourcePersistence(ProductCreationFailed));
      }
    }

    /** getAll: the products that are not deleted, in store order; an empty
        list, never a failure, when there are none. */
    method GetAll() returns (r: seq<ProductDto>)
      ensures r == AvailableProducts(products.rows)
    {
      var rows := products.rows;
      r := [];
      for i := 0 to |rows|
        invariant r == AvailableProducts(rows[..i])
      {
        assert rows[..i + 1] == rows[..i] + [rows[i]];
        FilterMapSnoc(rows[..i], rows[i], IsLiveProduct, ProductToDto);
        if !rows[i].deleted {
          r := r + [ConvertProductToProductDto(Some(rows[i])).value];
        }
      }
      assert rows[..|rows|] == rows;
    }

    /** getById: not found when no row has the id or the row is deleted;
        otherwise that row as a DTO. */
    function GetById(productId: int): (r: Result<ProductDto>)
      reads this
      requires Valid()
      ensures r.Err? ==> r.failure == DataNotFound(ProductNotFound)
      ensures r.Ok? <==> exists i :: 0 <= i < |products.rows| && products.rows[i].id == Some(productId) && !products.rows[i].deleted
      ensures r.Ok? ==> exists i :: 0 <= i < |products.rows| && products.rows[i].id == Some(productId) && r.value == ProductToDto(products.rows[i])
    {
      match FindFirst(products.rows, ProductId, Some(productId))
      case None => Err(DataNotFound(ProductNotFound))
      case Some(p) => if p.deleted then Err(DataNotFound(ProductNotFound)) else Ok(ConvertProductToProductDto(Some(p)).value)
    }

    /** updateProduct: fails as getById does, before any write; otherwise the
        converted input replaces the stored row with its id and is returned. The
        id must not be null (findById rejects a null id). */
    method UpdateProduct(product: ProductDto) returns (r: Result<ProductDto>)
      requires Valid()
      requires product.id.Some?
      modifies this`products
      ensures Valid()
      ensures old(GetById(product.id.value)).Err? ==>
        r == Err(DataNotFound(ProductNotFound)) && products == old(products)
      ensures old(GetById(product.id.value)).Ok? ==>
        && products.nextId == old(products.nextId)
        && |products.rows| == |old(products.rows)|
        && (forall j :: 0 <= j < |products.rows| ==>
              products.rows[j] == if old(products.rows[j]).id == product.id
                                  then Persisted(ProductFromDto(product)) else old(products.rows[j]))
        && r == Ok(ProductToDto(Persisted(ProductFromDto(product))))
    {
      var found := GetById(product.id.value);
      if found.Err? {
        return Err(DataNotFound(ProductNotFound));
      }
      var row := Persisted(ConvertProductDtoToProduct(Some(product)).value);
      var i :| 0 <= i < |products.rows| && products.rows[i].id == product.id;
      SaveReplaces(products, row, ProductId, ProductWithId, i);
      SaveKeepsKeys(products, row, ProductId, ProductWithId);
      SaveKeepsColumns(products, row);
      products := Save(products, row, ProductId, ProductWithId).0;
      r := Ok(ConvertProductToProductDto(Some(row)).value);
    }

    /** isBrandUnique: no stored brand, deleted or not, has the name. */
    function IsBrandUnique(brand: BrandDto): (r: bool)
      reads this
      ensures r <==> forall i :: 0 <= i < |brands.rows| ==> brands.rows[i].name != brand.name
    {
      FindFirst(brands.rows, BrandName, brand.name).None?
    }

    /** getBrand: not found when no row has the id or the row is deleted;
        otherwise that brand as a DTO. */
    function GetBrand(brandId: int): (r: Result<BrandDto>)
      reads this
      requires Valid()
      ensures r.Err? ==> r.failure == DataNotFound(BrandNotFound)
      ensures r.Ok? <==> exists i :: 0 <= i < |brands.rows| && brands.rows[i].id == Some(brandId) && !brands.rows[i].deleted
      ensures r.Ok? ==> exists i :: 0 <= i < |brands.rows| && brands.rows[i].id == Some(brandId)
                          && r.value == BrandMapper.BrandToDto(brands.rows[i])
    {
      match FindFirst(brands.rows, BrandId, Some(brandId))
      case None => Err(DataNotFound(BrandNotFound))
      case Some(b) => if b.deleted then Err(DataNotFound(BrandNotFound)) else Ok(BrandMapper.ConvertBrandToBrandDto(Some(b)).value)
    }

    /** getAllBrands: the brands that are not deleted, in store order; an empty
        list, never a failure, when there are none. */
    method GetAllBrands() returns (r: seq<BrandDto>)
      ensures r == AvailableBrands(brands.rows)
    {
      var rows := brands.rows;
      r := [];
      if |rows| != 0 {
        for i := 0 to |rows|
          invariant r == AvailableBrands(rows[..i])
        {
          assert rows[..i + 1] == rows[..i] + [rows[i]];
          FilterMapSnoc(rows[..i], rows[i], IsLiveBrand, BrandMapper.BrandToDto);
          if !rows[i].deleted {
            r := r + [BrandMapper.ConvertBrandToBrandDto(Some(rows[i])).value];
          }
        }
        assert rows[..|rows|] == rows;
      }
    }

    /** addBrand: a name any stored brand has is rejected before any write;
        otherwise the brand is saved and can be read back by its id. */
    method AddBrand(brand: BrandDto) returns (r: Result<BrandDto>)
      requires Valid()
      modifies this`brands
      ensures Valid()
      ensures !old(IsBrandUnique(brand)) ==>
        r == Err(RedundantData(DuplicateBrandName)) && brands == old(brands)
      ensures old(IsBrandUnique(brand)) ==>
        && brands == Save(old(brands), BrandMapper.BrandFromDto(brand), BrandId, BrandWithId).0
        && r == Ok(BrandMapper.BrandToDto(Save(old(brands), BrandMapper.BrandFromDto(brand), BrandId, BrandWithId).1))
      ensures r.Ok? ==> r.value.name == brand.name && r.value.id.Some? && GetBrand(r.value.id.value) == Ok(r.value)
      ensures r.Ok? && (brand.id.None? || forall j :: 0 <= j < |old(brands.rows)| ==> old(brands.rows[j]).id != brand.id) ==>
        brands.rows == old(brands.rows) + [Brand(Some(old(brands.nextId)), false, brand.name)]
    {
      if !IsBrandUnique(brand) {
        return Err(RedundantData(DuplicateBrandName));
      }
      var row := BrandMapper.ConvertBrandDtoToBrand(Some(brand)).value;
      SaveKeepsKeys(brands, row, BrandId, BrandWithId);
      SaveKeepsNames(brands, row);
      if brand.id.None? || forall j :: 0 <= j < |brands.rows| ==> brands.rows[j].id != brand.id {
        SaveAppends(brands, row, BrandId, BrandWithId);
      }
      var (table, saved) := Save(brands, row, BrandId, BrandWithId);
      brands := table;
      r := Ok(BrandMapper.ConvertBrandToBrandDto(Some(saved)).value);
    }

    /** Saving a brand whose name no stored brand has keeps the names unique. */
    static lemma SaveKeepsNames(t: Table<Brand>, row: Brand)
      requires UniqueNames(t.rows)
      requires forall i :: 0 <= i < |t.rows| ==> t.rows[i].name != row.name
      ensures UniqueNames(Save(t, row, BrandId, BrandWithId).0.rows)
    {
      var t' := Save(t, row, BrandId, BrandWithId).0;
      forall i, j | 0 <= i < j < |t'.rows|
        ensures t'.rows[i].name != t'.rows[j].name
      {
        if i < |t.rows| && t'.rows[i] != t.rows[i] {
          assert t'.rows[i] == row;
        }
        if j < |t.rows| && t'.rows[j] != t.rows[j] {
          assert t'.rows[j] == row;
        }
      }
    }

    /** updateBrand. With no live brand at all it returns the input and writes
        nothing. Otherwise the target must exist and not be deleted, and the
        name must match no stored brand, not even the target's own: only then
        does the brand replace the stored row with its id. A null id reaches
        findById, which rejects it, only when some brand is live. */
    method UpdateBrand(brand: BrandDto) returns (r: Result<BrandDto>)
      requires Valid()
      modifies this`brands
      ensures Valid()
      ensures old(AvailableBrands(brands.rows)) == [] ==> r == Ok(brand) && brands == old(brands)
      ensures old(AvailableBrands(brands.rows)) != [] && brand.id.None? ==>
        r == Err(IllegalArgument) && brands == old(brands)
      ensures old(AvailableBrands(brands.rows)) != [] && brand.id.Some? && old(GetBrand(brand.id.value)).Err? ==>
        r == Err(DataNotFound(BrandNotFound)) && brands == old(brands)
      ensures brand.id.Some? && old(AvailableBrands(brands.rows)) != [] && old(GetBrand(brand.id.value)).Ok? && !old(IsBrandUnique(brand)) ==>
        r == Err(RedundantData(DuplicateBrandName)) && brands == old(brands)
      ensures brand.id.Some? && old(GetBrand(brand.id.value)).Ok? && old(GetBrand(brand.id.value)).value.name == brand.name ==>
        r == Err(RedundantData(DuplicateBrandName))
      ensures brand.id.Some? && old(AvailableBrands(brands.rows)) != [] && old(GetBrand(brand.id.value)).Ok? && old(IsBrandUnique(brand)) ==>
        && brands.nextId == old(brands.nextId)
        && |brands.rows| == |old(brands.rows)|
        && (forall j :: 0 <= j < |brands.rows| ==>
              brands.rows[j] == if old(brands.rows[j]).id == brand.id
                                then BrandMapper.BrandFromDto(brand) else old(brands.rows[j]))
        && r == Ok(brand)
    {
      var available := GetAllBrands();
      if available == [] {
        AvailableBrandsExact(brands.rows, BrandMapper.BrandFromDto(brand));
        return Ok(brand);
      }
      if brand.id.None? {
        return Err(IllegalArgument);
      }
      var found := GetBrand(brand.id.value);
      if found.Err? {
        return Err(DataNotFound(BrandNotFound));
      }
      if !IsBrandUnique(brand) {
        return Err(RedundantData(DuplicateBrandName));
      }
      var row := BrandMapper.ConvertBrandDtoToBrand(Some(brand)).value;
      var i :| 0 <= i < |brands.rows| && brands.rows[i].id == brand.id;
      SaveReplaces(brands, row, BrandId, BrandWithId, i);
      SaveKeepsKeys(brands, row, BrandId, BrandWithId);
      SaveKeepsNames(brands, row);
      brands := Save(brands, row, BrandId, BrandWithId).0;
      r := Ok(BrandMapper.ConvertBrandToBrandDto(Some(row)).value);
    }
  }
}
