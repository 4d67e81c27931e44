/**
 * The admin products page: the stock badge and the search box that filters
 * the product list.
 */
module ProductList {
  import opened Wrappers
  import opened Text
  import opened Sequences
  import opened ProductSchema
  import opened Products
  import opened AddProductAction

  datatype BadgeVariant = Default | Secondary | Destructive

  datatype StockStatus = StockStatus(caption: string, variant: BadgeVariant)

  /** `getStockStatus(stock)` */
  function GetStockStatus(stock: int): (r: StockStatus)
    ensures r.caption == "Out of Stock" <==> stock == 0
    ensures r.caption == "Low Stock" <==> stock != 0 && stock <= 10
    ensures r.caption == "In Stock" <==> stock > 10
  {
    if stock == 0 then StockStatus("Out of Stock", Destructive)
    else if stock <= 10 then StockStatus("Low Stock", Secondary)
    else StockStatus("In Stock", Default)
  }

  /** Each label comes with its own badge variant, and every stock level gets exactly one of the three. */
  lemma StockStatusBands(stock: int)
    ensures GetStockStatus(stock) in {StockStatus("Out of Stock", Destructive),
                                      StockStatus("Low Stock", Secondary),
                                      StockStatus("In Stock", Default)}
    ensures stock < 0 ==> GetStockStatus(stock) == StockStatus("Low Stock", Secondary)
  {
  }

  /**
   * The status the add-product action stores and the badge the list shows
   * agree on every stock above zero and at zero; a negative stock is stored
   * as out of stock yet shown with the "Low Stock" badge, and a stock that
   * did not parse is stored as out of stock.
   */
  lemma StatusAndBadge(stock: int)
    ensures stock > 10 ==> StatusFor(Num(stock)) == Active && GetStockStatus(stock).caption == "In Stock"
    ensures 1 <= stock <= 10 ==> StatusFor(Num(stock)) == Active && GetStockStatus(stock).caption == "Low Stock"
    ensures stock == 0 ==> StatusFor(Num(stock)) == OutOfStock && GetStockStatus(stock).caption == "Out of Stock"
    ensures stock < 0 ==> StatusFor(Num(stock)) == OutOfStock && GetStockStatus(stock).caption == "Low Stock"
    ensures StatusFor(NaN) == OutOfStock
  {
  }

  /** The fields of a listed product the search looks at. */
  datatype ListedProduct = ListedProduct(
    name: string,
    slug: string,
    categoryName: Option<string>,
    sku: Option<string>,
    stock: int)

  /** An optional field matches when it is present and contains the query. */
  predicate OptionalContains(field: Option<string>, query: string) {
    field.Some? && Contains(Lower(field.value), query)
  }

  /** The `filter` callback, for an already lowercased `query`. */
  predicate MatchesQuery(product: ListedProduct, query: string) {
    || Contains(Lower(product.name), query)
    || Contains(Lower(product.slug), query)
    || OptionalContains(product.categoryName, query)
    || OptionalContains(product.sku, query)
  }

  /** `filteredProducts` for the text in the search box. */
  function FilteredProducts(products: seq<ListedProduct>, searchQuery: string): (r: seq<ListedProduct>)
    ensures |r| <= |products|
  {
    var query := Lower(searchQuery);
    Filter(products, p => MatchesQuery(p, query))
  }

  /** The search keeps products in their order and drops only non-matching ones. */
  lemma SearchIsOrderedSublist(products: seq<ListedProduct>, searchQuery: string)
    ensures IsSubsequence(FilteredProducts(products, searchQuery), products)
  {
    FilterIsSubsequence(products, p => MatchesQuery(p, Lower(searchQuery)));
  }

  /** A product is listed iff the lowercased query occurs in one of its lowercased fields. */
  lemma SearchKeepsExactlyMatches(products: seq<ListedProduct>, searchQuery: string, product: ListedProduct)
    ensures product in FilteredProducts(products, searchQuery) <==>
      && product in products
      && var q := Lower(searchQuery);
         || (exists i :: OccursAt(Lower(product.name), q, i))
         || (exists i :: OccursAt(Lower(product.slug), q, i))
         || (product.categoryName.Some? && exists i :: OccursAt(Lower(product.categoryName.value), q, i))
         || (product.sku.Some? && exists i :: OccursAt(Lower(product.sku.value), q, i))
  {
    var q := Lower(searchQuery);
    FilterMembership(products, p => MatchesQuery(p, q), product);
    ContainsIffOccurs(Lower(product.name), q);
    ContainsIffOccurs(Lower(product.slug), q);
    if product.categoryName.Some? {
      ContainsIffOccurs(Lower(product.categoryName.value), q);
    }
    if product.sku.Some? {
      ContainsIffOccurs(Lower(product.sku.value), q);
    }
  }

  /** An empty search box lists every product. */
  lemma EmptyQueryKeepsAll(products: seq<ListedProduct>)
    ensures FilteredProducts(products, "") == products
  {
    var q := Lower("");
    assert q == "";
    forall i | 0 <= i < |products| ensures MatchesQuery(products[i], q) {
      ContainsEmpty(Lower(products[i].name));
    }
    FilterKeepsAll(products, p => MatchesQuery(p, q));
  }
}
