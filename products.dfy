/**
 * The `products` table and the server action `addProduct` of
 * lib/services/products.ts: validate, allocate a unique slug, upload the
 * images one by one, insert one row. No role is consulted. Each upload's
 * answer and whether the insert succeeds are inputs.
 */
module Products {
  import opened Wrappers
  import opened Text
  import opened Slug
  import opened SlugAllocator
  import opened ProductSchema

  type ProductId = nat

  datatype ProductStatus = Active | OutOfStock

  /**
   * A row of `products`. `isActive` and `status` are `None` where the writing
   * action leaves the column to its database default.
   */
  datatype ProductRow = ProductRow(
    name: string,
    slug: string,
    description: Option<string>,
    price: Parsed<real>,
    comparePrice: Option<Parsed<real>>,
    category: string,
    stock: Parsed<int>,
    sku: Option<string>,
    images: seq<string>,
    primaryImage: string,
    isActive: Option<bool>,
    status: Option<ProductStatus>)

  /**
   * The FormData fields the two product actions read. A missing text field
   * reads as "" (every use treats the two alike); `comparePrice` is `None`
   * when its field is empty.
   */
  datatype ProductFormFields = ProductFormFields(
    name: string,
    slug: string,
    description: string,
    price: Parsed<real>,
    comparePrice: Option<Parsed<real>>,
    category: string,
    stock: Parsed<int>,
    sku: string,
    isActive: string,
    images: seq<File>)

  /** What the `product-images` bucket answers to one upload. */
  datatype UploadOutcome = Uploaded(publicUrl: string) | UploadRejected

  datatype ProductError =
    | MissingFields
    | PriceTooLow
    | NoImages
    | DuplicateSlug
    | UploadFailed(fileName: string)
    | CreateFailed

  function Message(e: ProductError): (text: string)
  {
    match e
    case MissingFields => "Missing required fields"
    case PriceTooLow => "Price must be at least 1"
    case NoImages => "At least one image is required"
    case DuplicateSlug => "A product with this slug already exists"
    case UploadFailed(fileName) => "Failed to upload image: " + fileName
    case CreateFailed => "Failed to create product"
  }

  /** `!price || price < 1` rejects; this is its negation. */
  predicate PriceAccepted(price: Parsed<real>)
  {
    !(price.NaN? || price.value == 0.0 || price.value < 1.0)
  }

  /** The server's price check accepts exactly the prices the form schema's `min(1)` accepts. */
  lemma ServerPriceCheckMatchesSchema(price: Parsed<real>)
    ensures PriceAccepted(price) <==> NumberAtLeast(Some(price), 1.0)
  {
  }

  /** The first `n` uploads all succeed. */
  ghost predicate AllUploaded(storage: nat -> UploadOutcome, n: nat)
  {
    forall i: nat :: i < n ==> storage(i).Uploaded?
  }

  /** Upload `k` is the first of the first `n` to fail. */
  ghost predicate FirstRejected(storage: nat -> UploadOutcome, n: nat, k: nat)
  {
    k < n && storage(k).UploadRejected? && AllUploaded(storage, k)
  }

  function UrlOf(o: UploadOutcome): (url: string)
  {
    if o.Uploaded? then o.publicUrl else ""
  }

  /** The public URLs of the first `n` uploads, in upload order. */
  function UploadedUrls(storage: nat -> UploadOutcome, n: nat): (urls: seq<string>)
  {
    seq(n, i requires 0 <= i < n => UrlOf(storage(i)))
  }

  /**
   * The upload loop: upload `images[i]` for i = 0, 1, ...; stop at the first
   * rejected upload, otherwise collect the public URLs in order.
   */
  method UploadImages(images: seq<File>, storage: nat -> UploadOutcome) returns (r: Result<seq<string>, ProductError>)
    ensures r.Ok? <==> AllUploaded(storage, |images|)
    ensures r.Ok? ==> r.value == UploadedUrls(storage, |images|)
    ensures r.Err? ==> exists k: nat :: FirstRejected(storage, |images|, k) && r.error == UploadFailed(images[k].name)
  {
    var imageUrls: seq<string> := [];
    for i := 0 to |images|
      invariant AllUploaded(storage, i)
      invariant imageUrls == UploadedUrls(storage, i)
    {
      var outcome := storage(i);
      if outcome.UploadRejected? {
        assert FirstRejected(storage, |images|, i);
        return Err(UploadFailed(images[i].name));
      }
      imageUrls := imageUrls + [outcome.publicUrl];
    }
    return Ok(imageUrls);
  }

  /** Exactly one answer: either every upload succeeds or one of them is the first to fail. */
  lemma {:induction false} UploadsSucceedOrFirstFails(storage: nat -> UploadOutcome, n: nat)
    ensures AllUploaded(storage, n) || exists k: nat :: FirstRejected(storage, n, k)
    ensures AllUploaded(storage, n) ==> forall k: nat :: !FirstRejected(storage, n, k)
  {
    if n > 0 {
      UploadsSucceedOrFirstFails(storage, n - 1);
      if AllUploaded(storage, n - 1) && storage(n - 1).UploadRejected? {
        assert FirstRejected(storage, n, n - 1);
      } else if !AllUploaded(storage, n - 1) {
        var k: nat :| FirstRejected(storage, n - 1, k);
        assert FirstRejected(storage, n, k);
      }
    }
  }

  predicate SlugsDistinct(rows: map<ProductId, ProductRow>)
  {
    forall a, b :: a in rows && b in rows && a != b ==> rows[a].slug != rows[b].slug
  }

  function SlugsOf(rows: map<ProductId, ProductRow>): (slugs: set<string>)
  {
    set k | k in rows :: rows[k].slug
  }

  class ProductTable {
    var rows: map<ProductId, ProductRow>
    var nextId: ProductId

    /** Ids are below the next one handed out; no two products share a slug. */
    ghost predicate Valid()
      reads this
    {
      (forall k :: k in rows ==> k < nextId) && SlugsDistinct(rows)
    }

    constructor ()
      ensures Valid() && rows == map[]
    {
      rows := map[];
      nextId := 0;
    }

    /**
     * `.insert([productData]).select("id").single()`. Both actions call it
     * only after their own check that the slug is not yet used.
     */
    method Insert(row: ProductRow, insertOk: bool) returns (res: Result<ProductId, ProductError>)
      requires Valid() && row.slug !in SlugsOf(rows)
      modifies this
      ensures Valid()
      ensures res.Ok? <==> insertOk
      ensures res.Err? ==> res.error == CreateFailed && rows == old(rows) && nextId == old(nextId)
      ensures res.Ok? ==> res.value !in old(rows) && rows == old(rows)[res.value := row]
    {
      if !insertOk {
        return Err(CreateFailed);
      }
      forall k | k in rows ensures rows[k].slug != row.slug {
        assert rows[k].slug in SlugsOf(rows);
      }
      var id := nextId;
      rows := rows[id := row];
      nextId := nextId + 1;
      return Ok(id);
    }
  }

  /** The row `addProduct` inserts for a form, a slug and the upload answers. */
  function ServiceRow(form: ProductFormFields, slug: string, storage: nat -> UploadOutcome): (row: ProductRow)
  {
    var urls := UploadedUrls(storage, |form.images|);
    ProductRow(
      form.name, slug, OrNull(form.description), form.price, form.comparePrice, form.category,
      form.stock, OrNull(form.sku), urls, if |urls| > 0 then urls[0] else "",
      Some(form.isActive == "true"), None)
  }

  /** `addProduct(formData)` of lib/services/products.ts */
  method AddProduct(table: ProductTable, form: ProductFormFields, storage: nat -> UploadOutcome, insertOk: bool)
    returns (res: Result<ProductId, ProductError>)
    requires table.Valid()
    modifies table
    ensures table.Valid()
    ensures form.name == "" || form.category == "" ==> res == Err(MissingFields)
    ensures form.name != "" && form.category != "" && !PriceAccepted(form.price) ==> res == Err(PriceTooLow)
    ensures form.name != "" && form.category != "" && PriceAccepted(form.price) && form.images == [] ==>
              res == Err(NoImages)
    ensures form.name != "" && form.category != "" && PriceAccepted(form.price) && form.images != [] &&
            !AllUploaded(storage, |form.images|) ==>
              exists k: nat :: FirstRejected(storage, |form.images|, k) && res == Err(UploadFailed(form.images[k].name))
    ensures res.Ok? <==>
              && form.name != "" && form.category != "" && PriceAccepted(form.price) && form.images != []
              && AllUploaded(storage, |form.images|) && insertOk
    ensures res.Err? ==> table.rows == old(table.rows) && table.nextId == old(table.nextId)
    ensures res.Ok? ==>
              && res.value !in old(table.rows) && res.value in table.rows
              && table.rows == old(table.rows)[res.value := table.rows[res.value]]
              && IsAllocatedSlug(GenerateSlug(form.name), SlugsOf(old(table.rows)), table.rows[res.value].slug)
              && table.rows[res.value] == ServiceRow(form, table.rows[res.value].slug, storage)
  {
    if form.name == "" || form.category == "" {
      return Err(MissingFields);
    }
    if !PriceAccepted(form.price) {
      return Err(PriceTooLow);
    }
    if |form.images| == 0 {
      return Err(NoImages);
    }
    var slug := GenerateUniqueSlug(form.name, SlugsOf(table.rows));
    var uploaded := UploadImages(form.images, storage);
    if uploaded.Err? {
      return Err(uploaded.error);
    }
    var imageUrls := uploaded.value;
    var row := ProductRow(
      form.name, slug, OrNull(form.description), form.price, form.comparePrice, form.category,
      form.stock, OrNull(form.sku), imageUrls, imageUrls[0], Some(form.isActive == "true"), None);
    res := table.Insert(row, insertOk);
  }

  /** The inserted row keeps the uploads in order and makes the first one primary. */
  lemma ServiceRowImages(form: ProductFormFields, slug: string, storage: nat -> UploadOutcome)
    requires form.images != [] && AllUploaded(storage, |form.images|)
    ensures var row := ServiceRow(form, slug, storage);
      && |row.images| == |form.images|
      && (forall i :: 0 <= i < |form.images| ==> storage(i) == Uploaded(row.images[i]))
      && row.primaryImage == row.images[0]
      && (form.comparePrice.None? ==> row.comparePrice.None?)
      && (form.sku == "" <==> row.sku.None?)
      && (form.description == "" <==> row.description.None?)
  {
  }
}
