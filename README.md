# Hexa-Shop write path, modelled in Dafny

Hexa-Shop is a Next.js storefront with an admin area backed by Supabase. This
project models the parts of it that hold real logic:

- **Slugs.** `generateSlug` turns a product or category name into a URL slug
  in five steps: lowercase, trim, drop special characters, collapse runs of
  separators into one hyphen, strip edge hyphens. There are three identical
  copies of it, modelled once as `Slug.GenerateSlug`. `generateUniqueSlug`
  probes `base`, `base-1`, `base-2`, … against the slugs already in one
  collection. It is modelled as a `while` loop in `SlugAllocator`.
- **The category store.** The `categories` table is the class
  `CategoryStore.CategoryTable`, whose `rows` map ids to rows. Its methods
  are the six role-gated server actions of `lib/services/categories.ts`.
  `getCategories` is modelled as a function over the fetched rows.
- **Product creation.** `Products.AddProduct` models `lib/services/products.ts`.
  `AddProductAction.AddProduct` models the older `app/actions/add-product.ts`.
  Both write to the `products` table (`Products.ProductTable`). Both run an
  upload loop that stops at the first rejected upload.
- **Roles and form schemas.** `Roles` covers the role predicates.
  `CategorySchema` and `ProductSchema` cover the zod form schemas.
- **Admin helpers.**
  - `ProductImages`: the image list of the product form.
  - `ProductList`: the stock badge and the search filter of the products page.
  - `CategoryStats`: the category statistics cards.
  - `UserAvatar`: the user's initials and the avatar test in the navbar.

Several things outside the program are inputs to the model rather than calls:

- the signed-in user: `Option<User>`;
- the storage bucket's answer to each upload;
- whether each database write, and each fetch whose error the source checks, succeeds;
- the file reader's result.

Strings are ASCII `seq<char>`:

- JavaScript's `\w` is `[A-Za-z0-9_]`.
- `\s` is space, tab, line feed, carriage return, vertical tab and form feed.
- A form field the browser did not send reads as `""`. Every use in the
  source treats a missing field and an empty one alike.

Where the source relies on `.single()`, it is modelled as "exactly one row
matches". Under the invariant that slugs are distinct, this is the same as
"some row matches", and `CategoryStore.AtMostOneOtherWithSlug` and
`AddProductAction.AtMostOneWithSlug` prove it.

## Model

| member | source | states |
|---|---|---|
| Text.TrimStartCutsSpace | lib/services/categories.ts:19 | Trimming the start leaves a suffix of the input, and everything cut off before it is whitespace. |
| Text.TrimEndCutsSpace | lib/services/categories.ts:19 | Everything trimming the end cuts off after the kept prefix is whitespace. |
| Text.TrimKeepsMiddle | lib/services/categories.ts:19 | `trim` returns a contiguous middle part of the input, in order, with only whitespace before and after it. |
| Text.BlankIffAllSpace | components/home/navbar/user-avatar.tsx:28 | A string trims to `""` exactly when every one of its characters is whitespace. |
| Text.ContainsIffOccurs | app/admin/products/page.tsx:62-65 | The recursive `includes` holds exactly when the needle occurs at some index of the haystack. |
| Text.ContainsEmpty | app/admin/products/page.tsx:62 | Every string includes the empty string. |
| Sequences.FilterIsSubsequence | app/admin/products/page.tsx:60-66 | `filter` returns an order-preserving sub-list of its input. |
| Sequences.FilterMembership | app/admin/products/page.tsx:60-66 | An element is kept exactly when it is in the input and passes the test. |
| Sequences.FilterKeepsAll | app/admin/products/page.tsx:60-66 | A filter whose test accepts every element returns its input unchanged. |
| Sequences.FilterPartition | components/admin/categories/category-stats.tsx:20-21 | Filtering by a test and by its negation gives lengths that add up to the input's length. |
| Slug.RemoveSpecialIsFilter | lib/services/categories.ts:20 | Removing special characters keeps exactly the word, whitespace and `-` characters of the input, in their order: it is the filter by that class. |
| Slug.CollapseSeparatorsSpec | lib/services/categories.ts:21 | After collapsing, the non-hyphen characters are exactly the input's non-separator characters in order, and there is exactly one `-` per maximal run of separators in the input. |
| Slug.CollapseSplitsAt | lib/services/categories.ts:21 | The replacement happens in place: around any non-separator character, the text before and the text after are collapsed independently, so each `-` stands where its run stood. |
| Slug.CollapseRun | lib/services/categories.ts:21 | A run made only of separators becomes exactly one `-`, or nothing when it continues a run already written. |
| Slug.CollapseKeepsCharacters | lib/services/categories.ts:21 | The collapse writes only `-` and the input's non-separator characters, and keeps every non-separator character. |
| Slug.DropLeadingHyphensCutsRun | lib/services/categories.ts:22 | Dropping leading hyphens leaves a suffix of the input, and everything cut off before it is `-`. |
| Slug.DropTrailingHyphensCutsRun | lib/services/categories.ts:22 | Dropping trailing hyphens leaves a prefix of the input, and everything cut off after it is `-`. |
| Slug.SlugCharOrigin | lib/services/categories.ts:16-23 | Every character of a slug is `-` or a lowercase letter or digit, and that letter or digit is the lowercase form of some input character. |
| Slug.AlnumReachesSlug | lib/services/categories.ts:16-23 | Every ASCII letter or digit of the input appears, lowercased, in the slug. |
| Slug.GenerateSlugWellFormed | lib/services/categories.ts:16-23 | The slug uses only `a-z`, `0-9` and `-`. It never starts or ends with `-` and never contains `--`. |
| Slug.SlugIsFixedPoint | components/admin/products/product-form-schema.ts:42-49 | `generateSlug` returns a well-formed slug unchanged. |
| Slug.RemoveSpecialKeepsSlug | components/admin/products/product-form-schema.ts:46 | Removing special characters changes nothing in a string made only of slug characters. |
| Slug.CollapseKeepsSlug | components/admin/products/product-form-schema.ts:47 | Collapsing separators changes nothing in a string of slug characters that has no `--` (and, inside a run, no leading `-`). |
| Slug.GenerateSlugIdempotent | lib/services/products.ts:15-22 | Applying `generateSlug` twice gives the same result as applying it once. |
| Slug.GenerateSlugEmptyIff | components/admin/products/product-form-schema.ts:42-49 | The slug is empty exactly when the input contains no ASCII letter or digit. |
| SlugAllocator.Decimal | lib/services/categories.ts:53 | The rendering of a counter is non-empty, made only of digits, with no leading zero: it is `"0"` for 0 and starts with a non-zero digit otherwise. |
| SlugAllocator.DecimalRoundTrip | lib/services/categories.ts:53 | Parsing the decimal rendering of `n` gives back `n`. |
| SlugAllocator.CandidateInjective | lib/services/categories.ts:52-58 | Distinct counters give distinct `${baseSlug}-${counter}` probes. |
| SlugAllocator.GenerateUniqueSlug | lib/services/categories.ts:28-62 | The result is not among the collection's slugs. It is `base` when `base` is free. Otherwise it is `base-k` for the smallest `k >= 1` whose probe is free. |
| SlugAllocator.AllocatedSlugIsDetermined | lib/services/products.ts:27-61 | The allocation promise admits exactly one slug for a given base and set of taken slugs. |
| SlugAllocator.CandidateWellFormed | lib/services/products.ts:52-58 | A suffixed probe of a non-empty well-formed base is itself well-formed. |
| SlugAllocator.AllocatedSlugWellFormed | lib/services/categories.ts:28-62 | For a name containing a letter or digit, the allocated slug is non-empty and well-formed. |
| SlugAllocator.EmptyBaseAllocatesMalformed | lib/services/categories.ts:52-61 | A name with no letter or digit gets `""` while that is free, and otherwise `-k`, which is not a well-formed slug. |
| Roles.NoSessionNoRole | lib/auth/roles.ts:7-15 | Without a user, `isAdmin`, `isDemoAdmin` and `hasAdminAccess` are all false. |
| Roles.AdminAndDemoAdminExclusive | lib/auth/roles.ts:9-14 | No user is both an admin and a demo admin. |
| Roles.DemoAdminHasAccessButIsNotAdmin | lib/auth/roles.ts:20-22 | A demo admin has admin access but is not an admin. |
| Roles.RoleAloneDecidesAccess | lib/auth/roles.ts:7-22 | Two users with the same role get the same answers from `isAdmin`, `isDemoAdmin` and `hasAdminAccess`; a user without a role has no admin access. |
| CategorySchema.LengthBoundaries | components/admin/categories/category-form-schema.ts:6-18 | The length limits sit exactly at their bounds: an empty or 51-character name fails, a 501-character description fails; a 1-character name passes, and so does a 50-character name with a 500-character description and a null image. |
| CategorySchema.ImageSizeBoundary | components/admin/categories/category-form-schema.ts:4-17 | An image of exactly 2 MiB passes and one byte more fails. An absent or null image passes. |
| CategorySchema.ValidityIgnoresIsActive | components/admin/categories/category-form-schema.ts:9 | The value of `is_active` never changes validity. |
| ProductSchema.NumberBoundaries | components/admin/products/product-form-schema.ts:10-23 | With the text fields and images filled in, a price of exactly 1 with stock 0 passes, with or without a compare price of 0; a price of 0.99, NaN or none fails, and so do stock -1 and a compare price of -0.01. |
| ProductSchema.OptionalTextUnconstrained | components/admin/products/product-form-schema.ts:12-20 | Description and SKU never affect validity. |
| ProductSchema.DefaultFormInvalid | components/admin/products/product-form-schema.ts:27-37 | The default form values fail the schema: the name is empty, the price is unset and there are no images. |
| CategoryStore.AtMostOneOtherWithSlug | lib/services/categories.ts:189-201 | When slugs are distinct, at most one other category holds a given slug, so `.single()` finds a row exactly when one exists. |
| CategoryStore.CategoryTable.AddCategory | lib/services/categories.ts:64-153 | The checks run in this order: a non-admin is refused; then a blank name; then a failed upload; then a failed insert. On success the method adds exactly one new row with the allocated unique slug, the uploaded image and `products = []`. Any failure leaves the table unchanged. Slugs stay distinct. |
| CategoryStore.CategoryTable.UpdateCategory | lib/services/categories.ts:160-258 | A non-admin is refused, then a blank name. The update is refused when another category already holds the recomputed slug; the category's own slug does not count. A failed upload and a failed update are also refused, each with its own error. On success only that row changes: its new name, slug, description, image and active flag are written. Slugs stay distinct. |
| CategoryStore.CategoryTable.DeleteCategory | lib/services/categories.ts:265-297 | A non-admin is refused. On success exactly that id is removed. |
| CategoryStore.CategoryTable.PublishAllDraftCategories | lib/services/categories.ts:305-336 | A non-admin is refused. On success every draft becomes active, nothing else changes, and the count is the number of drafts. |
| CategoryStore.CategoryTable.HideEmptyCategories | lib/services/categories.ts:338-388 | A non-admin is refused, then a failed fetch. With no empty category the method writes nothing and reports 0. Otherwise exactly the empty categories become inactive, and the count is how many there were. |
| CategoryStore.CategoryTable.DeleteEmptyCategories | lib/services/categories.ts:390-440 | Same as hiding, except that the empty categories are removed. |
| CategoryStore.GetCategoriesCounts | lib/services/categories.ts:442-470 | The listing keeps the fetched order and ids. Each product count is present: it is the number of joined products when they were joined, and 0 exactly when the category has no products. |
| Products.UploadImages | lib/services/products.ts:97-124 | The loop succeeds exactly when every upload succeeds, and then returns the public URLs in upload order. Otherwise it fails with the name of the first rejected file. |
| Products.UploadsSucceedOrFirstFails | lib/services/products.ts:100-116 | Either every upload succeeds or exactly one upload is the first to fail, never both. |
| Products.ProductTable.Insert | lib/services/products.ts:141-150 | On success the method adds exactly one row under a fresh id, and slugs stay distinct. A failed insert changes nothing. |
| Products.AddProduct | lib/services/products.ts:63-164 | The checks run in this order, with no role check: missing name or category; then a price that is NaN, 0 or below 1; then no images; then the first failed upload; then a failed insert. On success the method inserts one row with the allocated unique slug, and any failure leaves the table unchanged. |
| Products.ServerPriceCheckMatchesSchema | lib/services/products.ts:86 | The service's check that refuses a falsy price or one below 1 refuses exactly the prices the form schema's `min(1)` refuses. |
| Products.ServiceRowImages | lib/services/products.ts:126-139 | The inserted `images` are the upload URLs in order, and `primary_image` is the first of them. An empty SKU or description becomes null, and so does a missing compare price. |
| AddProductAction.AtMostOneWithSlug | app/actions/add-product.ts:40-49 | When slugs are distinct, at most one row holds a slug, and one does exactly when the slug is taken. |
| AddProductAction.AddProduct | app/actions/add-product.ts:15-117 | The checks run in this order, with no role check: missing name, slug or category; then no images; then a slug that is already used, which is refused rather than suffixed; then the first failed upload; then a failed insert. On success the action inserts the form's slug, the URLs in order with the first as primary, and the status derived from stock. |
| ProductImages.CheckBoundaries | components/admin/products/product-images-form.tsx:20-45 | Exactly 2 MiB passes and one byte more is rejected for size, even when the type is wrong too; a file of any size whose MIME type does not start with `image/` is never accepted, and a small one is rejected for type (for example `text/plain` or `imagepng`). |
| ProductImages.LimitMatchesCategorySchema | components/admin/products/product-images-form.tsx:20 | The product form's 2 MiB limit equals the category schema's, so a file the product form accepts also passes the category image check. |
| ProductImages.SelectValidFiles | components/admin/products/product-images-form.tsx:30-46 | The collected files are exactly the accepted files, in input order. |
| ProductImages.ReadAll | components/admin/products/product-images-form.tsx:52-68 | The read succeeds exactly when every file reads. It then yields one image per file, in order, with the file and its preview. |
| ProductImages.ProcessImageFiles | components/admin/products/product-images-form.tsx:26-74 | When no file is valid, or a read fails, the current images are returned unchanged. Otherwise the current images are returned followed by the new ones. |
| ProductImages.HandleImageChange | components/admin/products/product-images-form.tsx:77-90 | An empty selection changes nothing. Otherwise the field becomes its images followed by the previews of the accepted files when every accepted file reads, and stays as it was when a read fails. |
| ProductImages.ProcessedImagesAppendAccepted | components/admin/products/product-images-form.tsx:48-69 | When every accepted file reads, the list grows by exactly the number of accepted files. The existing images stay in front and the new ones follow in input order. |
| ProductImages.RemoveAt | components/admin/products/product-images-form.tsx:122-127 | Removing index `i` drops exactly that element and keeps the others in order. An index out of range changes nothing. |
| ProductImages.RemoveAndPrimary | components/admin/products/product-images-form.tsx:122-137 | Removing any image but the first keeps the primary image. Removing the first makes the second image primary. |
| ProductList.StatusAndBadge | app/actions/add-product.ts:91 | The stored status and the list's badge agree above 10 (active, In Stock), from 1 to 10 (active, Low Stock) and at 0 (out of stock, Out of Stock); a negative stock is stored out of stock yet badged Low Stock, and a stock that did not parse is stored out of stock. |
| ProductList.StockStatusBands | app/admin/products/page.tsx:43-47 | Every stock level gets one of the three label and variant pairs, and negative stock counts as low. |
| ProductList.SearchIsOrderedSublist | app/admin/products/page.tsx:58-67 | The search result is an order-preserving sub-list of the products. |
| ProductList.SearchKeepsExactlyMatches | app/admin/products/page.tsx:59-66 | A product is listed exactly when it is among the products and the lowercased query occurs in its lowercased name or slug, or in its category name or SKU when present. |
| ProductList.EmptyQueryKeepsAll | app/admin/products/page.tsx:59-66 | An empty query lists every product. |
| CategoryStats.TotalProductsAppend | components/admin/categories/category-stats.tsx:22 | The product total of two lists joined together is the sum of their totals. |
| CategoryStats.TotalProductsZeroIff | components/admin/categories/category-stats.tsx:22 | The product total is 0 exactly when every count is missing or 0. A missing count adds nothing. |
| CategoryStats.StatsShape | components/admin/categories/category-stats.tsx:19-29 | The cards always come in the order Total, Active, Draft, Products. Active plus draft equals the total, and the last card shows the product total. |
| CategoryStats.NoCategoriesAllZero | components/admin/categories/category-stats.tsx:19-29 | With no categories, every card shows 0. |
| UserAvatar.AltText | components/home/navbar/user-avatar.tsx:35 | The alt text is never empty. It is the full name or else the email when one is non-empty, and `"User"` otherwise. |
| UserAvatar.Split | components/home/navbar/user-avatar.tsx:20 | `split(" ")` yields at least one piece, and no piece contains a space. |
| UserAvatar.JoinSplit | components/home/navbar/user-avatar.tsx:20 | Joining the split pieces with spaces gives back the original name. |
| UserAvatar.FirstLettersAreWordStarts | components/home/navbar/user-avatar.tsx:19-22 | The first letters of the pieces are exactly the non-space characters that begin the name or follow a space. Empty pieces contribute nothing. |
| UserAvatar.Initials | components/home/navbar/user-avatar.tsx:17-25 | The initials have at most two characters. |
| UserAvatar.InitialsAreFirstWordStarts | components/home/navbar/user-avatar.tsx:17-25 | The initials are the uppercased starts of the first two words, in order. An empty name gives empty initials. |
| UserAvatar.HasValidAvatarIff | components/home/navbar/user-avatar.tsx:27-28 | The picture is shown exactly when an avatar URL is set and contains a non-whitespace character. |

## Left out

- **Supabase I/O.** The model does not make the calls to `auth.getUser`, the table queries and writes, storage `upload`/`getPublicUrl`, or `revalidatePath`. Their outcomes are parameters: the user, a storage outcome per upload, and a success flag per write and per fetch whose error the source checks.
- **`Date.now()` file names.** The model does not build the storage file paths from `Date.now()` and the file extension; only the upload's answer matters.
- CategoryStore.CategoryTable.UpdateCategory: the duplicate-slug query's error is ignored by the source (lib/services/categories.ts:192-201); the model treats that query as always answering, so a failed query that lets a duplicate slug through is not modelled.
- AddProductAction.AddProduct: the same holds for the action's duplicate-slug query (app/actions/add-product.ts:40-49); a failed query that lets a duplicate slug through is not modelled.
- **Failed slug query.** `generateUniqueSlug` returns `base` when its slug query fails (lib/services/categories.ts:35-42). The model takes the collection's slugs as a given set, so it does not capture this case.
- **Concurrency.** The read-then-write slug probe, the read-then-act bulk operations and the parallel `Promise.all` reads are modelled sequentially, as a single request at a time.
- **Exceptions.** The `try`/`catch` blocks that turn a thrown exception into `{ ok: false, error: message }` are not modelled, because nothing in the model throws.
- **Number parsing.** `parseFloat`/`parseInt` are not modelled; price and stock arrive already parsed, as a number or NaN. Floating-point rounding is not modelled either.
- **Unicode.** Case mapping, `trim`, `\w` and `\s` are modelled over ASCII only.
- **Listing order.** The `created_at` ordering of `getCategories` is taken as the order of the fetched rows.
- **`getCategories` extra columns.** Every column other than the product count is passed through as fetched.
- **React UI.** Component state, dialogs, toasts, the skeletons and the React Query hooks are not modelled.
- **Storage and database defaults.** Columns an action leaves to their database default (`is_active` in the older action, `status` in the service action) are `None` in the inserted row.
- **Product listing delete.** The delete dialog of the products page is not modelled; it only calls a hook (`deleteProduct`), and that hook's body is not part of this model.
- **Categories page toggling.** The expand/collapse state of the categories page is not modelled, because it is UI state.
- **Dashboards and settings pages.** The analytics, inventory, orders, customers and settings pages are not modelled, because they work on hard-coded sample data.
- UserAvatar.Initials: `toUpperCase` is modelled on ASCII letters only; other characters pass through unchanged.
