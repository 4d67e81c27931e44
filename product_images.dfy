/**
 * The image list of the product form: `processImageFiles` appends the chosen
 * files that pass the size and type checks, the remove button filters one
 * index out, and the image at index 0 is the one labelled primary.
 */
module ProductImages {
  import opened Wrappers
  import opened Sequences
  import opened ProductSchema
  import CategorySchema

  /** 2 MiB, the largest accepted image. */
  const MaxFileSize: nat := 2 * 1024 * 1024

  datatype Rejection = TooLarge | NotAnImage

  /** The per-file checks in their order: size first, then the MIME type. */
  function Check(file: File): (r: Option<Rejection>)
  {
    if file.size > MaxFileSize then Some(TooLarge)
    else if !("image/" <= file.mimeType) then Some(NotAnImage)
    else None
  }

  predicate Accepted(file: File) { Check(file).None? }

  /**
   * The size limit sits at exactly 2 MiB, inclusive; an oversized file is
   * reported for its size even when it is not an image either; and a file of
   * any size is refused when its type is not `image/...`, as the examples
   * `text/plain` and `imagepng` show.
   */
  lemma CheckBoundaries(name: string, size: nat, mime: string)
    ensures !("image/" <= mime) ==> !Accepted(File(name, size, mime))
    ensures Check(File(name, 2097152, "image/png")) == None
    ensures Check(File(name, 2097153, "image/png")) == Some(TooLarge)
    ensures Check(File(name, 2097153, "text/plain")) == Some(TooLarge)
    ensures Check(File(name, 0, "text/plain")) == Some(NotAnImage)
    ensures Check(File(name, 0, "imagepng")) == Some(NotAnImage)
  {
    assert !("image/" <= "text/plain") by { assert "text/plain"[0] != 'i'; }
    assert !("image/" <= "imagepng") by { assert "imagepng"[5] != '/'; }
  }

  /**
   * The product form's limit is the category schema's limit: a file the
   * product form accepts also passes the category image check.
   */
  lemma LimitMatchesCategorySchema(file: File)
    ensures MaxFileSize == CategorySchema.MaxImageSize
    ensures Accepted(file) ==>
              CategorySchema.ValidImage(CategorySchema.Chosen(CategorySchema.ImageFile(file.name, file.size)))
  {
  }

  /** The `forEach` that collects `validFiles`. */
  method SelectValidFiles(files: seq<File>) returns (validFiles: seq<File>)
    ensures validFiles == Filter(files, Accepted)
  {
    validFiles := [];
    for i := 0 to |files|
      invariant validFiles == Filter(files[..i], Accepted)
    {
      var file := files[i];
      assert files[..i + 1][..i] == files[..i];
      if file.size > MaxFileSize {
        // rejected: too large
      } else if !("image/" <= file.mimeType) {
        // rejected: not an image
      } else {
        validFiles := validFiles + [file];
      }
    }
    assert files[..|files|] == files;
  }

  /**
   * `Promise.all` over one `FileReader` per file: the previews in file order,
   * or `None` as soon as one read fails. `reader` gives a file's data URL, or
   * `None` when reading it fails.
   */
  function ReadAll(files: seq<File>, reader: File -> Option<string>): (r: Option<seq<ProductImage>>)
    ensures r.Some? <==> forall i :: 0 <= i < |files| ==> reader(files[i]).Some?
    ensures r.Some? ==> |r.value| == |files|
    ensures r.Some? ==>
              forall i :: 0 <= i < |files| ==> r.value[i] == ProductImage(files[i], reader(files[i]).value)
  {
    if files == [] then Some([])
    else
      match reader(files[0])
      case None => None
      case Some(preview) =>
        var rest := ReadAll(files[1..], reader);
        if rest.None? then None else Some([ProductImage(files[0], preview)] + rest.value)
  }

  /** `processImageFiles(files, currentImages)` */
  method ProcessImageFiles(files: seq<File>, currentImages: seq<ProductImage>, reader: File -> Option<string>)
    returns (r: seq<ProductImage>)
    ensures Filter(files, Accepted) == [] ==> r == currentImages
    ensures ReadAll(Filter(files, Accepted), reader).None? ==> r == currentImages
    ensures ReadAll(Filter(files, Accepted), reader).Some? ==>
              r == currentImages + ReadAll(Filter(files, Accepted), reader).value
  {
    var validFiles := SelectValidFiles(files);
    if |validFiles| == 0 {
      return currentImages;
    }
    var newImages := ReadAll(validFiles, reader);
    if newImages.None? {
      return currentImages;
    }
    return currentImages + newImages.value;
  }

  /** `handleImageChange`: an empty selection leaves the field as it was. */
  method HandleImageChange(files: seq<File>, fieldValue: seq<ProductImage>, reader: File -> Option<string>)
    returns (updated: seq<ProductImage>)
    ensures files == [] ==> updated == fieldValue
    ensures |updated| >= |fieldValue| && updated[..|fieldValue|] == fieldValue
    ensures |updated| <= |fieldValue| + |files|
    ensures files != [] ==>
              updated == (if ReadAll(Filter(files, Accepted), reader).Some?
                          then fieldValue + ReadAll(Filter(files, Accepted), reader).value
                          else fieldValue)
  {
    if |files| == 0 {
      return fieldValue;
    }
    updated := ProcessImageFiles(files, fieldValue, reader);
    var valid := Filter(files, Accepted);
    if ReadAll(valid, reader).Some? {
      assert (fieldValue + ReadAll(valid, reader).value)[..|fieldValue|] == fieldValue;
    }
  }

  /** After a successful read the list grows by exactly the accepted files, appended in their order. */
  lemma ProcessedImagesAppendAccepted(files: seq<File>, currentImages: seq<ProductImage>, reader: File -> Option<string>)
    requires forall i :: 0 <= i < |files| && Accepted(files[i]) ==> reader(files[i]).Some?
    ensures var valid := Filter(files, Accepted);
      && ReadAll(valid, reader).Some?
      && var r := currentImages + ReadAll(valid, reader).value;
      && |r| == |currentImages| + |valid|
      && r[..|currentImages|] == currentImages
      && (forall i :: 0 <= i < |valid| ==> r[|currentImages| + i].file == valid[i])
      && IsSubsequence(valid, files)
  {
    var valid := Filter(files, Accepted);
    forall i | 0 <= i < |valid| ensures reader(valid[i]).Some? {
      assert valid[i] in files;
      var j :| 0 <= j < |files| && files[j] == valid[i];
    }
    FilterIsSubsequence(files, Accepted);
  }

  /** The remove button: `images.filter((_, i) => i !== index)`. */
  function RemoveAt<T>(s: seq<T>, index: int): (r: seq<T>)
    ensures 0 <= index < |s| ==>
      && |r| == |s| - 1
      && (forall j :: 0 <= j < index ==> r[j] == s[j])
      && (forall j :: index <= j < |r| ==> r[j] == s[j + 1])
    ensures !(0 <= index < |s|) ==> r == s
  {
    if s == [] then []
    else RemoveAt(s[..|s| - 1], index) + (if index == |s| - 1 then [] else [s[|s| - 1]])
  }

  /** The image labelled primary. */
  function Primary(images: seq<ProductImage>): (primary: ProductImage)
    requires images != []
  {
    images[0]
  }

  /** Removing any image but the first keeps the primary; removing the first promotes the second. */
  lemma RemoveAndPrimary(images: seq<ProductImage>, index: int)
    requires 0 <= index < |images| && |images| >= 2
    ensures index > 0 ==> Primary(RemoveAt(images, index)) == Primary(images)
    ensures index == 0 ==> Primary(RemoveAt(images, index)) == images[1]
  {
  }
}
