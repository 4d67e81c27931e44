/**
 * The older server action `addProduct` of app/actions/add-product.ts. It takes
 * the slug from the form, refuses a slug that is already used instead of
 * suffixing it, derives `status` from the stock and consults no role.
 */
module AddProductAction {
  import opened Wrappers
  import opened ProductSchema
  import opened Products
  import opened Text

  /** `stock > 0 ? "active" : "out_of_stock"`; a NaN stock compares false. */
  function StatusFor(stock: Parsed<int>): (s: ProductStatus)
  {
    if stock.Num? && stock.value > 0 then Active else OutOfStock
  }

  /** The rows holding `slug` (the `.eq("slug", slug)` query). */
  function RowsWithSlug(rows: map<ProductId, ProductRow>, slug: string): (holders: set<ProductId>)
  {
    set k | k in rows && rows[k].slug == slug
  }

  /** With distinct slugs, `.single()` on that query finds a row exactly when the slug is used. */
  lemma AtMostOneWithSlug(rows: map<ProductId, ProductRow>, slug: string)
    requires SlugsDistinct(rows)
    ensures |RowsWithSlug(rows, slug)| <= 1
    ensures RowsWithSlug(rows, slug) == {} <==> slug !in SlugsOf(rows)
  {
    var holders := RowsWithSlug(rows, slug);
    if holders != {} {
      var a :| a in holders;
      assert holders == {a};
    }
    if slug in SlugsOf(rows) {
      var k :| k in rows && rows[k].slug == slug;
      assert k in holders;
    }
  }

  /** The row the action inserts. */
  function ActionRow(form: ProductFormFields, storage: nat -> UploadOutcome): (row: ProductRow)
  {
    var urls := UploadedUrls(storage, |form.images|);
    ProductRow(
      form.name, form.slug, OrNull(form.description), form.price, None, form.category,
      form.stock, OrNull(form.sku), urls, if |urls| > 0 then urls[0] else "",
      None, Some(StatusFor(form.stock)))
  }

  /** `addProduct(formData)` of app/actions/add-product.ts */
  method AddProduct(table: ProductTable, form: ProductFormFields, storage: nat -> UploadOutcome, insertOk: bool)
    returns (res: Result<ProductId, ProductError>)
    requires table.Valid()
    modifies table
    ensures table.Valid()
    ensures form.name == "" || form.slug == "" || form.category == "" ==> res == Err(MissingFields)
    ensures form.name != "" && form.slug != "" && form.category != "" && form.images == [] ==> res == Err(NoImages)
    ensures form.name != "" && form.slug != "" && form.category != "" && form.images != [] &&
            form.slug in SlugsOf(old(table.rows)) ==>
              res == Err(DuplicateSlug)
    ensures form.name != "" && form.slug != "" && form.category != "" && form.images != [] &&
            form.slug !in SlugsOf(old(table.rows)) && !AllUploaded(storage, |form.images|) ==>
              exists k: nat :: FirstRejected(storage, |form.images|, k) && res == Err(UploadFailed(form.images[k].name))
    ensures res.Ok? <==>
              && form.name != "" && form.slug != "" && form.category != "" && form.images != []
              && form.slug !in SlugsOf(old(table.rows)) && AllUploaded(storage, |form.images|) && insertOk
    ensures res.Err? ==> table.rows == old(table.rows) && table.nextId == old(table.nextId)
    ensures res.Ok? ==>
              && res.value !in old(table.rows)
              && table.rows == old(table.rows)[res.value := ActionRow(form, storage)]
  {
    if form.name == "" || form.slug == "" || form.category == "" {
      return Err(MissingFields);
    }
    if |form.images| == 0 {
      return Err(NoImages);
    }
    var holders := RowsWithSlug(table.rows, form.slug);
    AtMostOneWithSlug(table.rows, form.slug);
    if |holders| == 1 {
      return Err(DuplicateSlug);
    }
    var uploaded := UploadImages(form.images, storage);
    if uploaded.Err? {
      return Err(uploaded.error);
    }
    var imageUrls := uploaded.value;
    var row := ProductRow(
      form.name, form.slug, OrNull(form.description), form.price, None, form.category,
      form.stock, OrNull(form.sku), imageUrls, imageUrls[0], None, Some(StatusFor(form.stock)));
    res := table.Insert(row, insertOk);
  }
}
