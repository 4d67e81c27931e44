/** `categoryFormSchema` and the `Category` record shown by the admin pages. */
module CategorySchema {
  import opened Wrappers

  /** 2 MiB, the largest accepted category image. */
  const MaxImageSize: nat := 2 * 1024 * 1024

  /** What the form knows of a chosen file. */
  datatype ImageFile = ImageFile(name: string, size: nat)

  /** The `image` field: not set, explicitly `null`, or a file. */
  datatype ImageField = Absent | Null | Chosen(file: ImageFile)

  datatype CategoryFormData = CategoryFormData(
    name: string,
    description: Option<string>,
    isActive: bool,
    image: ImageField)

  predicate ValidName(name: string) { 1 <= |name| <= 50 }

  predicate ValidDescription(description: Option<string>)
  {
    description.None? || |description.value| <= 500
  }

  /** The `refine`: no file, or a file of at most 2 MiB. */
  predicate ValidImage(image: ImageField)
  {
    !image.Chosen? || image.file.size <= MaxImageSize
  }

  /** `categoryFormSchema.safeParse(data).success` */
  predicate ValidCategoryForm(f: CategoryFormData)
  {
    ValidName(f.name) && ValidDescription(f.description) && ValidImage(f.image)
  }

  /**
   * The length bounds are inclusive at both ends: a name of 1 or 50
   * characters and a description of 500 pass; an empty name, a name of 51
   * and a description of 501 fail, whatever the other fields hold.
   */
  lemma LengthBoundaries(f: CategoryFormData)
    ensures !ValidCategoryForm(f.(name := ""))
    ensures !ValidCategoryForm(f.(name := seq(51, _ => 'a')))
    ensures !ValidCategoryForm(f.(description := Some(seq(501, _ => 'a'))))
    ensures ValidCategoryForm(f.(name := "a", description := None, image := Absent))
    ensures ValidCategoryForm(f.(name := seq(50, _ => 'a'), description := Some(seq(500, _ => 'a')), image := Null))
  {
  }

  /** The image bound is inclusive: exactly 2 MiB passes, one byte more fails. */
  lemma ImageSizeBoundary(name: string)
    ensures ValidImage(Chosen(ImageFile(name, 2097152)))
    ensures !ValidImage(Chosen(ImageFile(name, 2097153)))
    ensures ValidImage(Absent) && ValidImage(Null)
  {
  }

  /** `is_active` is a required boolean; its value never decides validity. */
  lemma ValidityIgnoresIsActive(f: CategoryFormData, b: bool)
    ensures ValidCategoryForm(f.(isActive := b)) == ValidCategoryForm(f)
  {
  }

  /** The `Category` record the listing and the statistics work on. */
  datatype Category = Category(
    id: nat,
    name: string,
    slug: string,
    description: Option<string>,
    image: Option<string>,
    productCount: Option<nat>,   // `product_count`; None when the record carries none
    isActive: bool)
}
