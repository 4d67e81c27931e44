/**
 * `productFormSchema` and `defaultProductFormValues`. The exported
 * `generateSlug` of the same file is `Slug.GenerateSlug`.
 */
module ProductSchema {
  import opened Wrappers

  /** What the browser reports of a chosen file. */
  datatype File = File(name: string, size: nat, mimeType: string)

  /** A chosen image and its data-URL preview. */
  datatype ProductImage = ProductImage(file: File, preview: string)

  /** A number field of the form: `None` while `undefined`, NaN, or a value. */
  type NumberField = Option<Parsed<real>>

  datatype ProductFormData = ProductFormData(
    name: string,
    description: Option<string>,
    price: NumberField,
    comparePrice: NumberField,
    category: string,
    stock: NumberField,
    sku: Option<string>,
    isActive: bool,
    images: seq<ProductImage>)

  /** `z.number().min(min)`: a number (not undefined, not NaN) of at least `min`. */
  predicate NumberAtLeast(n: NumberField, min: real)
  {
    n.Some? && n.value.Num? && n.value.value >= min
  }

  /** `productFormSchema.safeParse(data).success` */
  predicate ValidProductForm(f: ProductFormData)
  {
    && |f.name| >= 1
    && NumberAtLeast(f.price, 1.0)
    && (f.comparePrice.None? || NumberAtLeast(f.comparePrice, 0.0))
    && |f.category| >= 1
    && NumberAtLeast(f.stock, 0.0)
    && |f.images| >= 1
  }

  const DefaultProductFormValues := ProductFormData(
    name := "",
    description := Some(""),
    price := None,        // left undefined so that the user must type one
    comparePrice := None,
    category := "",
    stock := Some(Num(0.0)),
    sku := Some(""),
    isActive := true,
    images := [])

  /**
   * The numeric bounds are inclusive: a price of exactly 1 passes and 0.99
   * fails; a stock of 0 passes and -1 fails; a compare price of 0 passes and
   * -0.01 fails while leaving it out passes. NaN or a missing price fails.
   */
  lemma NumberBoundaries(f: ProductFormData)
    requires |f.name| >= 1 && |f.category| >= 1 && |f.images| >= 1
    ensures ValidProductForm(f.(price := Some(Num(1.0)), stock := Some(Num(0.0)), comparePrice := None))
    ensures ValidProductForm(f.(price := Some(Num(1.0)), stock := Some(Num(0.0)), comparePrice := Some(Num(0.0))))
    ensures !ValidProductForm(f.(price := Some(Num(0.99))))
    ensures !ValidProductForm(f.(price := Some(NaN)))
    ensures !ValidProductForm(f.(price := None))
    ensures !ValidProductForm(f.(stock := Some(Num(-1.0))))
    ensures !ValidProductForm(f.(comparePrice := Some(Num(-0.01))))
  {
  }

  /** Description and SKU are unconstrained: changing them never changes validity. */
  lemma OptionalTextUnconstrained(f: ProductFormData, description: Option<string>, sku: Option<string>)
    ensures ValidProductForm(f.(description := description, sku := sku)) == ValidProductForm(f)
  {
  }

  /** The defaults can never be submitted: name, price, category and images all fail. */
  lemma DefaultFormInvalid()
    ensures !ValidProductForm(DefaultProductFormValues)
    ensures |DefaultProductFormValues.name| == 0 && |DefaultProductFormValues.images| == 0
    ensures !NumberAtLeast(DefaultProductFormValues.price, 1.0)
  {
  }
}
