/**
 * The server actions of lib/services/categories.ts over the `categories`
 * table. The table is a map from id to row; the signed-in user, the storage
 * bucket's answer and whether the database accepts each write are inputs.
 * Every action checks the role first: only `"admin"` may write.
 */
module CategoryStore {
  import opened Wrappers
  import opened Text
  import opened Roles
  import opened Slug
  import opened SlugAllocator
  import opened CategorySchema

  type CategoryId = nat

  /** Ids of the products that reference a category (the `products(id)` join). */
  type ProductRef = nat

  datatype CategoryRow = CategoryRow(
    name: string,
    slug: string,
    description: Option<string>,
    image: Option<string>,
    isActive: bool,
    products: Option<seq<ProductRef>>)

  /**
   * The FormData fields the actions read. A field the browser did not send
   * reads as "" here: every use in the actions treats a missing field and an
   * empty one alike.
   */
  datatype CategoryFormFields = CategoryFormFields(
    name: string,
    description: string,
    image: Option<ImageFile>,
    imageUrl: Option<string>,   // `image_url`, read by the update action only
    isActive: string)

  /** What the `category-images` bucket answers to an upload. */
  datatype StorageOutcome = Stored(publicUrl: string) | StorageFailed

  datatype Action = CreateAction | UpdateAction | DeleteAction | PublishAction | HideAction

  datatype CategoryError =
    | Unauthorized(action: Action)
    | NameRequired
    | UploadFailed(fileName: string)
    | CreateFailed
    | DuplicateName
    | UpdateFailed
    | DeleteFailed
    | PublishFailed
    | FetchFailed
    | HideFailed
    | DeleteEmptyFailed

  /** The `error` string each failure carries. */
  function Message(e: CategoryError): (text: string)
  {
    match e
    case Unauthorized(CreateAction) => "Only admin users can create categories"
    case Unauthorized(UpdateAction) => "Only admin users can update categories"
    case Unauthorized(DeleteAction) => "Only admin users can delete categories"
    case Unauthorized(PublishAction) => "Only admin users can publish categories"
    case Unauthorized(HideAction) => "Only admin users can hide categories"
    case NameRequired => "Category name is required"
    case UploadFailed(fileName) => "Failed to upload image: " + fileName
    case CreateFailed => "Failed to create category"
    case DuplicateName => "A category with this name already exists"
    case UpdateFailed => "Failed to update category"
    case DeleteFailed => "Failed to delete category"
    case PublishFailed => "Failed to publish categories"
    case FetchFailed => "Failed to fetch categories"
    case HideFailed => "Failed to hide empty categories"
    case DeleteEmptyFailed => "Failed to delete empty categories"
  }

  /** `image && image.size > 0` */
  predicate WillUpload(image: Option<ImageFile>) { image.Some? && image.value.size > 0 }

  /** `isActiveStr === "true"` */
  predicate ActiveFlag(s: string) { s == "true" }

  predicate SlugsDistinct(rows: map<CategoryId, CategoryRow>)
  {
    forall a, b :: a in rows && b in rows && a != b ==> rows[a].slug != rows[b].slug
  }

  function SlugsOf(rows: map<CategoryId, CategoryRow>): (slugs: set<string>)
  {
    set k | k in rows :: rows[k].slug
  }

  /** The rows other than `id` whose slug is `slug` (the update action's `.eq(slug).neq(id)` query). */
  function OthersWithSlug(rows: map<CategoryId, CategoryRow>, id: CategoryId, slug: string): (others: set<CategoryId>)
  {
    set k | k in rows && k != id && rows[k].slug == slug
  }

  /** `!c.products || c.products.length === 0` */
  predicate IsEmptyCategory(row: CategoryRow)
  {
    row.products.None? || |row.products.value| == 0
  }

  function EmptyIds(rows: map<CategoryId, CategoryRow>): (ids: set<CategoryId>)
  {
    set k | k in rows && IsEmptyCategory(rows[k])
  }

  function DraftIds(rows: map<CategoryId, CategoryRow>): (ids: set<CategoryId>)
  {
    set k | k in rows && !rows[k].isActive
  }

  /** With distinct slugs, `.single()` on the update action's query finds a row exactly when one exists. */
  lemma AtMostOneOtherWithSlug(rows: map<CategoryId, CategoryRow>, id: CategoryId, slug: string)
    requires SlugsDistinct(rows)
    ensures |OthersWithSlug(rows, id, slug)| <= 1
  {
    var others := OthersWithSlug(rows, id, slug);
    if others != {} {
      var a :| a in others;
      assert others == {a};
    }
  }

  /** The row written by a successful update of `row`. */
  function UpdatedRow(row: CategoryRow, form: CategoryFormFields, storage: StorageOutcome): (updated: CategoryRow)
  {
    row.(name := form.name,
         slug := GenerateSlug(form.name),
         description := OrNull(form.description),
         image := if WillUpload(form.image) && storage.Stored? then Some(storage.publicUrl) else form.imageUrl,
         isActive := ActiveFlag(form.isActive))
  }

  class CategoryTable {
    var rows: map<CategoryId, CategoryRow>
    var nextId: CategoryId

    /** Ids are below the next one handed out; no two categories share a slug. */
    ghost predicate Valid()
      reads this
    {
      (forall k :: k in rows ==> k < nextId) && SlugsDistinct(rows)
    }

    constructor ()
      ensures Valid() && rows == map[]
    {
      rows := map[];
      nextId := 0;
    }

    /** `addCategory(formData)` */
    method AddCategory(user: Option<User>, form: CategoryFormFields, storage: StorageOutcome, insertOk: bool)
      returns (res: Result<CategoryId, CategoryError>)
      requires Valid()
      modifies this
      ensures Valid()
      ensures !IsAdmin(user) ==> res == Err(Unauthorized(CreateAction))
      ensures IsAdmin(user) && IsBlank(form.name) ==> res == Err(NameRequired)
      ensures IsAdmin(user) && !IsBlank(form.name) && WillUpload(form.image) && storage.StorageFailed? ==>
                res == Err(UploadFailed(form.image.value.name))
      ensures IsAdmin(user) && !IsBlank(form.name) && (!WillUpload(form.image) || storage.Stored?) && !insertOk ==>
                res == Err(CreateFailed)
      ensures res.Ok? <==>
                IsAdmin(user) && !IsBlank(form.name) && (!WillUpload(form.image) || storage.Stored?) && insertOk
      ensures res.Err? ==> rows == old(rows) && nextId == old(nextId)
      ensures res.Ok? ==>
                && res.value !in old(rows) && res.value in rows
                && rows == old(rows)[res.value := rows[res.value]]
                && IsAllocatedSlug(GenerateSlug(form.name), SlugsOf(old(rows)), rows[res.value].slug)
                && rows[res.value] == CategoryRow(
                     form.name, rows[res.value].slug, OrNull(form.description),
                     if WillUpload(form.image) then Some(storage.publicUrl) else None,
                     ActiveFlag(form.isActive), Some([]))
    {
      if !IsAdmin(user) {
        return Err(Unauthorized(CreateAction));
      }
      if IsBlank(form.name) {
        return Err(NameRequired);
      }
      var slug := GenerateUniqueSlug(form.name, SlugsOf(rows));
      var imageUrl: Option<string> := None;
      if WillUpload(form.image) {
        if storage.StorageFailed? {
          return Err(UploadFailed(form.image.value.name));
        }
        imageUrl := Some(storage.publicUrl);
      }
      if !insertOk {
        return Err(CreateFailed);
      }
      var id := nextId;
      forall k | k in rows ensures rows[k].slug != slug {
        assert rows[k].slug in SlugsOf(rows);
      }
      rows := rows[id := CategoryRow(form.name, slug, OrNull(form.description), imageUrl, ActiveFlag(form.isActive), Some([]))];
      nextId := nextId + 1;
      return Ok(id);
    }

    /** `updateCategory(id, formData)`: the slug is recomputed from the name, never suffixed. */
    method UpdateCategory(user: Option<User>, id: CategoryId, form: CategoryFormFields, storage: StorageOutcome, updateOk: bool)
      returns (res: Result<(), CategoryError>)
      requires Valid()
      modifies this
      ensures Valid() && nextId == old(nextId)
      ensures !IsAdmin(user) ==> res == Err(Unauthorized(UpdateAction))
      ensures IsAdmin(user) && IsBlank(form.name) ==> res == Err(NameRequired)
      ensures IsAdmin(user) && !IsBlank(form.name) && OthersWithSlug(old(rows), id, GenerateSlug(form.name)) != {} ==>
                res == Err(DuplicateName)
      ensures IsAdmin(user) && !IsBlank(form.name) && OthersWithSlug(old(rows), id, GenerateSlug(form.name)) == {} &&
              WillUpload(form.image) && storage.StorageFailed? ==>
                res == Err(UploadFailed(form.image.value.name))
      ensures IsAdmin(user) && !IsBlank(form.name) && OthersWithSlug(old(rows), id, GenerateSlug(form.name)) == {} &&
              (!WillUpload(form.image) || storage.Stored?) && !updateOk ==>
                res == Err(UpdateFailed)
      ensures res.Ok? <==>
                && IsAdmin(user) && !IsBlank(form.name)
                && OthersWithSlug(old(rows), id, GenerateSlug(form.name)) == {}
                && (!WillUpload(form.image) || storage.Stored?) && updateOk
      ensures res.Err? ==> rows == old(rows)
      ensures res.Ok? ==>
                rows == if id in old(rows) then old(rows)[id := UpdatedRow(old(rows)[id], form, storage)] else old(rows)
    {
      if !IsAdmin(user) {
        return Err(Unauthorized(UpdateAction));
      }
      if IsBlank(form.name) {
        return Err(NameRequired);
      }
      var slug := GenerateSlug(form.name);
      var others := OthersWithSlug(rows, id, slug);
      AtMostOneOtherWithSlug(rows, id, slug);
      if |others| == 1 {
        return Err(DuplicateName);
      }
      if WillUpload(form.image) && storage.StorageFailed? {
        return Err(UploadFailed(form.image.value.name));
      }
      if !updateOk {
        return Err(UpdateFailed);
      }
      if id in rows {
        assert others == {};
        forall k | k in rows && k != id ensures rows[k].slug != slug {
          assert k !in others;
        }
        rows := rows[id := UpdatedRow(rows[id], form, storage)];
      }
      return Ok(());
    }

    /** `deleteCategory(id)` */
    method DeleteCategory(user: Option<User>, id: CategoryId, deleteOk: bool) returns (res: Result<(), CategoryError>)
      requires Valid()
      modifies this
      ensures Valid() && nextId == old(nextId)
      ensures !IsAdmin(user) ==> res == Err(Unauthorized(DeleteAction))
      ensures IsAdmin(user) && !deleteOk ==> res == Err(DeleteFailed)
      ensures res.Ok? <==> IsAdmin(user) && deleteOk
      ensures rows == if res.Ok? then old(rows) - {id} else old(rows)
    {
      if !IsAdmin(user) {
        return Err(Unauthorized(DeleteAction));
      }
      if !deleteOk {
        return Err(DeleteFailed);
      }
      rows := rows - {id};
      return Ok(());
    }

    /** `publishAllDraftCategories()`: sets `is_active` on every draft and reports how many changed. */
    method PublishAllDraftCategories(user: Option<User>, updateOk: bool) returns (res: Result<nat, CategoryError>)
      requires Valid()
      modifies this
      ensures Valid() && nextId == old(nextId)
      ensures !IsAdmin(user) ==> res == Err(Unauthorized(PublishAction))
      ensures IsAdmin(user) && !updateOk ==> res == Err(PublishFailed)
      ensures res.Ok? <==> IsAdmin(user) && updateOk
      ensures res.Err? ==> rows == old(rows)
      ensures res.Ok? ==>
                && res.value == |DraftIds(old(rows))|
                && rows.Keys == old(rows).Keys
                && forall k :: k in rows ==>
                     rows[k] == if k in DraftIds(old(rows)) then old(rows)[k].(isActive := true) else old(rows)[k]
    {
      if !IsAdmin(user) {
        return Err(Unauthorized(PublishAction));
      }
      if !updateOk {
        return Err(PublishFailed);
      }
      var drafts := DraftIds(rows);
      rows := map k | k in rows :: if k in drafts then rows[k].(isActive := true) else rows[k];
      return Ok(|drafts|);
    }

    /** `hideEmptyCategories()`: unpublishes every category without products. */
    method HideEmptyCategories(user: Option<User>, fetchOk: bool, updateOk: bool) returns (res: Result<nat, CategoryError>)
      requires Valid()
      modifies this
      ensures Valid() && nextId == old(nextId)
      ensures !IsAdmin(user) ==> res == Err(Unauthorized(HideAction))
      ensures IsAdmin(user) && !fetchOk ==> res == Err(FetchFailed)
      ensures IsAdmin(user) && fetchOk && EmptyIds(old(rows)) == {} ==> res == Ok(0)
      ensures IsAdmin(user) && fetchOk && EmptyIds(old(rows)) != {} && !updateOk ==> res == Err(HideFailed)
      ensures res.Ok? <==> IsAdmin(user) && fetchOk && (EmptyIds(old(rows)) == {} || updateOk)
      ensures res.Err? || EmptyIds(old(rows)) == {} ==> rows == old(rows)
      ensures res.Ok? ==>
                && res.value == |EmptyIds(old(rows))|
                && rows.Keys == old(rows).Keys
                && forall k :: k in rows ==>
                     rows[k] == if k in EmptyIds(old(rows)) then old(rows)[k].(isActive := false) else old(rows)[k]
    {
      if !IsAdmin(user) {
        return Err(Unauthorized(HideAction));
      }
      if !fetchOk {
        return Err(FetchFailed);
      }
      var empty := EmptyIds(rows);
      if |empty| == 0 {
        return Ok(0);
      }
      if !updateOk {
        return Err(HideFailed);
      }
      rows := map k | k in rows :: if k in empty then rows[k].(isActive := false) else rows[k];
      return Ok(|empty|);
    }

    /** `deleteEmptyCategories()`: removes every category without products. */
    method DeleteEmptyCategories(user: Option<User>, fetchOk: bool, deleteOk: bool) returns (res: Result<nat, CategoryError>)
      requires Valid()
      modifies this
      ensures Valid() && nextId == old(nextId)
      ensures !IsAdmin(user) ==> res == Err(Unauthorized(DeleteAction))
      ensures IsAdmin(user) && !fetchOk ==> res == Err(FetchFailed)
      ensures IsAdmin(user) && fetchOk && EmptyIds(old(rows)) == {} ==> res == Ok(0)
      ensures IsAdmin(user) && fetchOk && EmptyIds(old(rows)) != {} && !deleteOk ==> res == Err(DeleteEmptyFailed)
      ensures res.Ok? <==> IsAdmin(user) && fetchOk && (EmptyIds(old(rows)) == {} || deleteOk)
      ensures res.Ok? ==> res.value == |EmptyIds(old(rows))|
      ensures rows == if res.Ok? then old(rows) - EmptyIds(old(rows)) else old(rows)
    {
      if !IsAdmin(user) {
        return Err(Unauthorized(DeleteAction));
      }
      if !fetchOk {
        return Err(FetchFailed);
      }
      var empty := EmptyIds(rows);
      if |empty| == 0 {
        return Ok(0);
      }
      if !deleteOk {
        return Err(DeleteEmptyFailed);
      }
      rows := rows - empty;
      return Ok(|empty|);
    }
  }

  /** One listed category: the row with `product_count` in place of the joined products. */
  function ToCategory(id: CategoryId, row: CategoryRow): (c: Category)
  {
    Category(id, row.name, row.slug, row.description, row.image,
             Some(if row.products.Some? then |row.products.value| else 0), row.isActive)
  }

  /** `getCategories()` over the rows the query returned (already in `created_at` order), or a failed query. */
  function GetCategories(fetched: Option<seq<(CategoryId, CategoryRow)>>): (r: Result<seq<Category>, CategoryError>)
  {
    if fetched.None? then Err(FetchFailed)
    else Ok(seq(|fetched.value|, i requires 0 <= i < |fetched.value| => ToCategory(fetched.value[i].0, fetched.value[i].1)))
  }

  /** The listing keeps the fetched order and reports each category's product count: the number of joined products, 0 when none are joined. */
  lemma GetCategoriesCounts(fetched: seq<(CategoryId, CategoryRow)>)
    ensures GetCategories(Some(fetched)).Ok?
    ensures |GetCategories(Some(fetched)).value| == |fetched|
    ensures forall i :: 0 <= i < |fetched| ==>
      var c := GetCategories(Some(fetched)).value[i];
      && c.id == fetched[i].0 && c.slug == fetched[i].1.slug && c.isActive == fetched[i].1.isActive
      && c.productCount.Some?
      && (c.productCount.value == 0 <==> IsEmptyCategory(fetched[i].1))
      && (fetched[i].1.products.Some? ==> c.productCount == Some(|fetched[i].1.products.value|))
  {
  }
}
