# Catalog server model

A Dafny model of the server side of a storefront catalog built on tRPC procedures over a
relational store. The model covers:

- the public category procedures (`getAll`, `getById`, `getBySlug`, `getNavigation`) and the
  admin-only `create`, `update` and `delete`, which keep the category tree free of cycles;
- the public product procedures (the filtered, paginated `getAll`, `getById`, `getBySlug`) and
  the admin-only `create`, `update`, `updateStatus`, `updateFeatured` and `delete`;
- the older product router, which derives slugs from names, checks the ADMIN role by hand and
  pages by cursor;
- the promotion procedures (`getActive`, `getByProductId`, the admin `getAll`, `create`,
  `update`, `delete`) and their product link table;
- the account procedures `signin`, `signup`, `verifyEmail` and `forgotPassword`;
- the shared schemas (`slugSchema`, `dateRangeSchema`, `paginationSchema`,
  `activeFilterSchema`), `validateSlugUniqueness` and the `isAdmin` guard.

The store is a `Store.Database` object with one `seq` field per table (categories, products,
promotions, product-promotion links, users) and an id counter. The invariant `Valid()` says
that ids and slugs are unique, promotion codes are unique, e-mails are unique, every parent
and category reference resolves, every link names an existing promotion and an existing
product, no (product, promotion) pair is linked twice, and the category tree is acyclic.
Reads are functions of the table values. Writes are methods that modify the database. Each
write states:

- which error its first failing check raises, through a ghost function that lists the checks
  in the order the procedure runs them;
- that a rejected call leaves the store unchanged, except where the procedure writes in two
  separate steps and the second fails (promotion `create`);
- the exact new contents of the tables it writes, and that the other tables stay equal;
- that `Valid()` is preserved, proved through small lemmas about each table update.

tRPC errors are the datatype `ErrorCode` (`NotFound`, `Conflict`, `BadRequest`,
`Unauthorized`, `Forbidden`, `InternalError`). A plain `Error` thrown by a procedure, and a
failure of the store itself (a unique constraint, a negative `skip`), both become
`InternalError`.

Parameters stand for what the procedures take from outside: the session, the clock (`now`),
password hashing and comparison, e-mail syntax (`isEmail`), random tokens, and whether the
e-mail was delivered (`mailSent`).

Input schemas are read with the semantics of zod version 4. The promotion schema spreads
`dateRangeSchema.shape` (src/server/modules/promotion.ts:19), and `dateRangeSchema` is a
refined object (src/server/utils/schemas.ts:14-20). In version 3 a refined object has no
`.shape`, so that line only type-checks under version 4. Two consequences follow:

- the promotion schemas carry `startDate` and `endDate`, but not the rule that the end comes
  after the start, which stays the standalone `Schemas.CheckDateRange`;
- a `.partial()` schema still fills in each field's `.default(...)` when the field is
  omitted. An update that leaves out `isActive` switches a category or a promotion on. A
  product update that leaves out the stock, either flag, the tags or the region codes
  resets them to 0, true, false, [] and [].

## Model

| member | source | states |
|---|---|---|
| Middleware.IsAdmin | src/server/utils/middleware.ts:5-33 | No session or no session user gives UNAUTHORIZED. Otherwise the result is OK exactly when the stored user exists and is ADMIN or SUPER_ADMIN, and FORBIDDEN when not. |
| Schemas.PatternMeaning | src/server/utils/schemas.ts:5-7 | The slug pattern holds exactly for a non-empty string made only of lower-case letters, digits and dashes. |
| Schemas.ValidSlugMeaning | src/server/utils/schemas.ts:5-7 | A slug is accepted exactly when it has two or more characters, each a lower-case letter, digit or dash. |
| Schemas.CheckDateRange | src/server/utils/schemas.ts:14-20 | A range passes exactly when the start is strictly before the end, so equal dates are rejected; a failure is BAD_REQUEST. |
| Schemas.ParsePagination | src/server/utils/schemas.ts:23-26 | OK exactly when the limit is absent or in [1, 100]. The page defaults to 1 and is unbounded; the limit defaults to 10. |
| Schemas.IncludeInactive | src/server/utils/schemas.ts:32-34 | True exactly when the flag is given as true. |
| Schemas.ValidateSlugUniqueness | src/server/utils/schemas.ts:36-53 | Fails, with an internal error, exactly when a row other than the excluded one holds the slug. |
| Schemas.OwnSlugPasses | src/server/utils/schemas.ts:36-53 | With unique ids, a record keeping its own slug passes the check. |
| Text.Lower | src/server/api/routers/product.ts:36 | `toLowerCase` over ASCII: the same length, with each character lower-cased on its own. |
| Text.LowerIdempotent | src/server/modules/product.ts:70-76 | Lower-casing twice equals lower-casing once. |
| Text.ContainsMeaning | src/server/modules/product.ts:70-76 | `contains` holds exactly when the term occurs at some position of the text. |
| Text.InsensitiveToTermCase | src/server/modules/product.ts:70-76 | With `mode: 'insensitive'`, the case of the search term does not change the result. |
| Tables.FindFirst | src/server/modules/category.ts:87-88 | The position of the first row with the key, if any; absent exactly when no row has the key (`findUnique`, `findFirst`). |
| Tables.Filter | src/server/modules/product.ts:108-112 | Keeps exactly the rows the `where` accepts, never more rows than the table has. |
| Tables.Window | src/server/modules/product.ts:105-111 | The rows from `skip` on, at most `take` of them, each at its offset (`skip`/`take`). |
| Tables.RemoveAt | src/server/modules/product.ts:277 | A `delete` of one row: one row fewer, the rows before it in place and the rows after it shifted down by one. |
| Tables.SortBy | src/server/modules/category.ts:72-79 | A permutation of the rows sorted by the requested order (`orderBy`). |
| Tables.SortKeepsRows | src/server/modules/category.ts:72-79 | Sorting keeps exactly the same rows. |
| Tables.LexTotal | src/server/modules/category.ts:72-79 | Any two names are ordered one way or the other. |
| Tables.LexTransitive | src/server/modules/category.ts:72-79 | Name order is transitive. |
| Store.LinkedPromotions | src/server/modules/category.ts:87-110 | Every promotion listed for a product exists and is linked to it by a link row. |
| Store.LinkedProducts | src/server/modules/promotion.ts:29-42 | Every product listed for a promotion exists and is linked to it by a link row. |
| Store.LinkedPromotionsComplete | src/server/modules/product.ts:129-163 | With unique promotion ids, every link row of the product brings its promotion into the list. |
| Store.LinkedProductsComplete | src/server/modules/promotion.ts:29-42 | With unique product ids, every link row of the promotion brings its product into the list. |
| CategoryTree.SomeRank | src/server/modules/category.ts:256-271 | An acyclic table has a rank map that puts every parent above each of its children. |
| CategoryTree.ChildIsLower | src/server/modules/category.ts:256-271 | A child's height is below its parent's, so the recursive walk terminates. |
| CategoryTree.RankGrowsUpward | src/server/modules/category.ts:256-271 | Along any upward parent path the rank strictly grows. |
| CategoryTree.NoCategoryIsItsOwnAncestor | src/server/modules/category.ts:246-279 | Under the invariant, no category is its own ancestor. |
| CategoryTree.DescendThroughChild | src/server/modules/category.ts:256-271 | A category in a child's subtree is a proper descendant of the parent. |
| CategoryTree.ThroughSomeChild | src/server/modules/category.ts:256-271 | Every proper descendant lies in the subtree of one of the direct children. |
| CategoryTree.ChildIds | src/server/modules/category.ts:259-262 | Lists exactly the ids of the categories whose parent is `p`. |
| CategoryTree.IsChildCategory | src/server/modules/category.ts:256-271 | The recursive walk returns true exactly when the candidate is the category itself or one of its descendants by parent links. |
| CategoryTree.AddLeafKeepsAcyclic | src/server/modules/category.ts:171-206 | Adding a category with a fresh id under an existing parent, or with no parent, keeps the tree acyclic. |
| CategoryTree.RemoveKeepsAcyclic | src/server/modules/category.ts:290-331 | Removing any category keeps the tree acyclic. |
| CategoryTree.ReplaceKeepingParentKeepsAcyclic | src/server/modules/category.ts:208-288 | Updating a category without changing its parent keeps the tree acyclic. |
| CategoryTree.ReparentKeepsAcyclic | src/server/modules/category.ts:246-279 | Moving a category under an existing category outside its own subtree keeps the tree acyclic. |
| CategoryRouter.ByNameOrders | src/server/modules/category.ts:54-82 | Ordering by name is a total preorder. |
| CategoryRouter.OrderByName | src/server/modules/category.ts:54-82 | The result holds the same categories, sorted by name ascending. |
| CategoryRouter.ListingContents | src/server/modules/category.ts:65-79 | A listed category carries exactly its direct children. It carries products only when asked, and then exactly the products of that category, active or not. |
| CategoryRouter.Visible | src/server/modules/category.ts:65-79 | Selects exactly the active categories, or all of them with `includeInactive`. |
| CategoryRouter.Listings | src/server/modules/category.ts:65-79 | Describes each selected category, in order, as a listing. |
| CategoryRouter.GetAll | src/server/modules/category.ts:54-82 | The listing is sorted by name, and each entry is its category's listing. |
| CategoryRouter.GetAllSelects | src/server/modules/category.ts:54-82 | Only categories of the table are listed, and inactive ones only when asked for. |
| CategoryRouter.GetAllComplete | src/server/modules/category.ts:54-82 | Every active category is listed, and every inactive one when asked for. |
| CategoryRouter.ActiveProductsOf | src/server/modules/category.ts:87-110 | Lists active products of that category, each with exactly its linked promotions. |
| CategoryRouter.WithPromotions | src/server/modules/category.ts:87-110 | Pairs each product, in order, with its linked promotions. |
| CategoryRouter.ActiveProductsComplete | src/server/modules/category.ts:87-110 | Every active product of the category is listed. |
| CategoryRouter.Detail | src/server/modules/category.ts:87-110 | The detail carries exactly the direct children, the parent when it exists, and the active products. |
| CategoryRouter.GetById | src/server/modules/category.ts:84-113 | NOT_FOUND exactly when no category has the id; otherwise the detail of that category, built by `Detail` with its children, parent and active products. |
| CategoryRouter.GetBySlug | src/server/modules/category.ts:115-144 | NOT_FOUND exactly when no category has the slug; otherwise the detail of that category, built by `Detail` with its children, parent and active products. |
| CategoryRouter.ActiveChildren | src/server/modules/category.ts:147-168 | Selects exactly the active direct children. |
| CategoryRouter.NavRootOf | src/server/modules/category.ts:147-168 | A navigation root carries its own category. |
| CategoryRouter.NavRootContents | src/server/modules/category.ts:147-168 | Below a root come exactly its active children, and below each of those exactly its own active children. |
| CategoryRouter.ActiveRoots | src/server/modules/category.ts:147-168 | Selects exactly the active categories without a parent. |
| CategoryRouter.NavRoots | src/server/modules/category.ts:147-168 | Builds one navigation root per root category, in order. |
| CategoryRouter.GetNavigation | src/server/modules/category.ts:147-168 | The roots are sorted by name, and each is built as a navigation root. |
| CategoryRouter.GetNavigationSelects | src/server/modules/category.ts:147-168 | Only active categories without a parent start the navigation. |
| CategoryRouter.GetNavigationComplete | src/server/modules/category.ts:147-168 | Every active category without a parent starts the navigation. |
| CategoryAdmin.AppendKeepsValid | src/server/modules/category.ts:171-206 | Appending a category with a fresh id, a free slug and an existing parent keeps the tables valid. |
| CategoryAdmin.Create | src/server/modules/category.ts:171-206 | The first failing check decides the error: guard, schema, CONFLICT for a taken slug, NOT_FOUND for a missing parent. A rejection changes nothing. Success appends the new category, with `isActive` defaulting to true. |
| CategoryAdmin.ReplaceKeepsValid | src/server/modules/category.ts:208-288 | Replacing a category with one that keeps its id, a free slug and an acyclic parent keeps the tables valid. |
| CategoryAdmin.CheckUpdate | src/server/modules/category.ts:208-288 | Returns the error of the first failing check of `update`, in source order. |
| CategoryAdmin.Update | src/server/modules/category.ts:208-288 | Guard, then schema, then NOT_FOUND. Then CONFLICT for a changed slug held elsewhere. Then BAD_REQUEST for a parent that is the category itself or one of its descendants, and an internal error for a parent that does not exist. A rejection changes nothing; success patches the supplied fields of that row only, and sets `isActive` to true when it is omitted. |
| CategoryAdmin.RemoveKeepsValid | src/server/modules/category.ts:290-331 | Removing a category that no category and no product refers to keeps the tables valid. |
| CategoryAdmin.Delete | src/server/modules/category.ts:290-331 | Guard, then NOT_FOUND, then BAD_REQUEST while children or products remain. Success removes exactly that category. |
| ProductRouter.WhereMeaning | src/server/modules/product.ts:68-103 | The `where` object selects exactly the products that pass every given filter. |
| ProductRouter.FeaturedFalseSelectsAll | src/server/modules/product.ts:86-88 | `featured: false` selects the same products as no `featured` filter. |
| ProductRouter.Matching | src/server/modules/product.ts:108-119 | Selects exactly the products that satisfy the `where` object. |
| ProductRouter.NewerFirstOrders | src/server/modules/product.ts:113 | Ordering by descending creation time is a total preorder. |
| ProductRouter.NewestFirst | src/server/modules/product.ts:113 | The result is a permutation of the input, sorted by creation time descending. |
| ProductRouter.CeilDiv | src/server/modules/product.ts:124 | The least number of pages of the given size that hold `n` items. |
| ProductRouter.WithCategory | src/server/modules/product.ts:114-116 | Attaches the product's category when it exists, and only that category. |
| ProductRouter.WithCategories | src/server/modules/product.ts:114-116 | Attaches to each product, in order, its category. |
| ProductRouter.Skip | src/server/modules/product.ts:105 | With a positive limit, `skip` is negative exactly when the page is below 1. |
| ProductRouter.Page | src/server/modules/product.ts:108-119 | A page holds at most `limit` products: the sorted matches from `skip` on, each with its category. |
| ProductRouter.GetAll | src/server/modules/product.ts:51-127 | A limit outside [1, 100] is BAD_REQUEST, and a page below 1 is an internal error. Otherwise at most `limit` products come back, with the total match count, the number of pages and the page number. |
| ProductRouter.PageSelects | src/server/modules/product.ts:108-119 | A page holds only products of the table that satisfy the `where` object. |
| ProductRouter.PageNewestFirst | src/server/modules/product.ts:108-119 | A page lists its products newest first. |
| ProductRouter.GetAllIsPage | src/server/modules/product.ts:105-126 | A successful call returns the page that starts at `(page - 1) * limit`. |
| ProductRouter.GetAllSelects | src/server/modules/product.ts:51-127 | Every listed product belongs to the table and passes every given filter. |
| ProductRouter.GetAllNewestFirst | src/server/modules/product.ts:51-127 | Listed products come newest first. |
| ProductRouter.TotalIgnoresPage | src/server/modules/product.ts:118-124 | With a valid limit and page numbers from 1 on, both calls succeed, and the total and the page count do not depend on the page asked for. |
| ProductRouter.PageOfIndex | src/server/modules/product.ts:105-124 | The i-th match falls on a page numbered from 1 up to the page count, at an offset below the limit. |
| ProductRouter.GetAllOnPage | src/server/modules/product.ts:105-126 | With a valid limit, page q is the page that starts at `(q - 1) * limit`. |
| ProductRouter.PlaceOfMatch | src/server/modules/product.ts:108-119 | Every product that passes the filters has a place in the sorted matches. |
| ProductRouter.PageHolds | src/server/modules/product.ts:108-119 | Position k of a page starting at `skip` holds the (skip + k)-th sorted match. |
| ProductRouter.ListedOnPage | src/server/modules/product.ts:105-126 | A match at offset k of page q, within the page count, is listed on that page. |
| ProductRouter.PageOfMatch | src/server/modules/product.ts:105-126 | Each sorted match is listed on some page. |
| ProductRouter.EveryMatchIsListed | src/server/modules/product.ts:51-127 | With a valid limit, every product that passes the filters is listed on some page within the page count. |
| ProductRouter.Detail | src/server/modules/product.ts:129-163 | The detail carries the product, its category when it exists and only that one, and the promotions its link rows name. |
| ProductRouter.DetailComplete | src/server/modules/product.ts:129-163 | With unique promotion ids, every promotion linked to the product is in its detail. |
| ProductRouter.GetById | src/server/modules/product.ts:129-163 | NOT_FOUND exactly when no product has the id; otherwise that product with its category and linked promotions, as `Detail` builds them. |
| ProductRouter.GetBySlug | src/server/modules/product.ts:165-199 | NOT_FOUND exactly when no product has the slug; otherwise that product with its category and linked promotions, as `Detail` builds them. |
| ProductRouter.SlugAndIdAgree | src/server/modules/product.ts:129-199 | With unique ids and slugs, looking a product up by slug gives the same answer as looking it up by id. |
| ProductAdmin.PatchKeepsIdentity | src/server/modules/product.ts:208-219 | The store's write keeps the id and the creation time, and each of the fourteen patchable fields that the data omits keeps its value. |
| ProductAdmin.PartialDefaults | src/server/modules/product.ts:19-34 | The parsed partial input sets stock, `isActive`, `isFeatured`, tags and region codes, to their defaults 0, true, false, [] and [] when omitted; every other field is as sent. |
| ProductAdmin.PartialDefaultsValid | src/server/modules/product.ts:19-34 | Filling in the defaults does not change whether the partial schema accepts the input. |
| ProductAdmin.PatchValidityMatchesInput | src/server/modules/product.ts:19-34 | A full input is valid exactly when the patch that sets all its fields is valid. |
| ProductAdmin.AppendKeepsValid | src/server/modules/product.ts:201-206 | Appending a product with a fresh id, a free slug and an existing category keeps the tables valid, link table included. |
| ProductAdmin.CheckCreate | src/server/modules/product.ts:201-206 | Returns the error of the first failing check of `create`, in source order. |
| ProductAdmin.Create | src/server/modules/product.ts:201-206 | Guard, then schema, then an internal error for a taken slug or a missing category. A rejection changes nothing. Success appends the new product with the schema defaults and issues a fresh id. |
| ProductAdmin.ReplaceKeepsValid | src/server/modules/product.ts:208-219 | Replacing a product with one that keeps its id, a free slug and an existing category keeps the tables valid, link table included. |
| ProductAdmin.CheckUpdate | src/server/modules/product.ts:208-219 | Returns the error of the first failing check of `update`, in source order. |
| ProductAdmin.Update | src/server/modules/product.ts:208-219 | Guard, then partial schema, then an internal error for a slug held by another product, a missing row or a missing category, in that order. A rejection changes nothing; success patches only that row, with the omitted defaulted fields reset. |
| ProductAdmin.Flipped | src/server/modules/product.ts:221-261 | Negates the chosen flag and leaves every other field as it was. |
| ProductAdmin.Toggled | src/server/modules/product.ts:221-261 | Flips the flag of the product with that id and leaves every other row alone. |
| ProductAdmin.ToggleTwice | src/server/modules/product.ts:221-261 | Toggling the same flag twice restores the table. |
| ProductAdmin.FlipsCommute | src/server/modules/product.ts:221-261 | Flipping two flags gives the same product in either order. |
| ProductAdmin.TogglesCommute | src/server/modules/product.ts:221-261 | `updateStatus` and `updateFeatured` commute on the table. |
| ProductAdmin.ToggleKeepsValid | src/server/modules/product.ts:221-261 | A toggle keeps the tables valid, link table included, because every product id stays. |
| ProductAdmin.Toggle | src/server/modules/product.ts:221-261 | Guard, then NOT_FOUND exactly when the product is missing; an admitted call on an existing product always succeeds. Success flips the flag of that product and returns it. |
| ProductAdmin.RemoveKeepsValid | src/server/modules/product.ts:263-279 | Removing a product that no link row names keeps the tables valid. |
| ProductAdmin.Delete | src/server/modules/product.ts:263-279 | Guard, then NOT_FOUND exactly when the product is missing, then an internal error exactly when a link row still names it (the store refuses the delete). OK exactly for an admitted call on an existing, unlinked product. A refusal changes nothing; success removes exactly that product. |
| DerivedSlugs.SkipRun | src/server/api/routers/product.ts:35-38 | Drops the leading run of characters that are not letters or digits. |
| DerivedSlugs.CollapseRuns | src/server/api/routers/product.ts:35-38 | Replaces each run of characters that are not letters or digits with one dash. |
| DerivedSlugs.ConsDashSeparated | src/server/api/routers/product.ts:35-38 | A letter or digit, or a dash not followed by a dash, keeps a string dash-separated. |
| DerivedSlugs.CollapseDashSeparated | src/server/api/routers/product.ts:35-38 | After collapsing, the string holds only letters, digits and single dashes. |
| DerivedSlugs.TrimStart | src/server/api/routers/product.ts:35-38 | Removes the leading dashes: the result is a suffix of the input and does not start with a dash. |
| DerivedSlugs.TrimEnd | src/server/api/routers/product.ts:35-38 | Removes the trailing dashes: the result is a prefix of the input and does not end with a dash. |
| DerivedSlugs.SliceDashSeparated | src/server/api/routers/product.ts:35-38 | A slice of a dash-separated string is dash-separated. |
| DerivedSlugs.Slugify | src/server/api/routers/product.ts:35-38 | The derived slug has no leading or trailing dash. |
| DerivedSlugs.TrimStartDashSeparated | src/server/api/routers/product.ts:35-38 | Trimming leading dashes keeps a string dash-separated. |
| DerivedSlugs.TrimEndDashSeparated | src/server/api/routers/product.ts:35-38 | Trimming trailing dashes keeps a string dash-separated. |
| DerivedSlugs.SlugifyDashSeparated | src/server/api/routers/product.ts:35-38 | The derived slug holds only lower-case letters, digits and single inner dashes. |
| DerivedSlugs.Alnums | src/server/api/routers/product.ts:35-38 | Keeps exactly the letters and digits of a string, in order. |
| DerivedSlugs.AlnumsAppend | src/server/api/routers/product.ts:35-38 | Keeping the letters and digits distributes over concatenation. |
| DerivedSlugs.AlnumsSkipRun | src/server/api/routers/product.ts:35-38 | Skipping a separator run loses no letter or digit. |
| DerivedSlugs.AlnumsCollapse | src/server/api/routers/product.ts:35-38 | Collapsing runs loses no letter or digit. |
| DerivedSlugs.AlnumsTrimStart | src/server/api/routers/product.ts:35-38 | Trimming leading dashes loses no letter or digit. |
| DerivedSlugs.AlnumsTrimEnd | src/server/api/routers/product.ts:35-38 | Trimming trailing dashes loses no letter or digit. |
| DerivedSlugs.SlugKeepsLettersAndDigits | src/server/api/routers/product.ts:35-38 | The derived slug keeps every letter and digit of the lower-cased name, in order. |
| DerivedSlugs.DerivedSlugValid | src/server/api/routers/product.ts:35-38 | A derived slug of two or more characters passes `slugSchema`. |
| DerivedSlugs.LowerFixesSlugText | src/server/api/routers/product.ts:35-38 | Lower-casing leaves a slug-shaped string unchanged. |
| DerivedSlugs.CollapseFixesDashSeparated | src/server/api/routers/product.ts:35-38 | Collapsing leaves a dash-separated string unchanged. |
| DerivedSlugs.SlugOfSlugShaped | src/server/api/routers/product.ts:35-38 | A dash-separated lower-case string without edge dashes is its own slug. |
| DerivedSlugs.SlugifyIdempotent | src/server/api/routers/product.ts:35-38 | Deriving a slug from a derived slug changes nothing. |
| ProductApi.ApiCreateRejection | src/server/api/routers/product.ts:21-41 | No error means a valid input, an ADMIN role and a free derived slug. A role other than ADMIN is always refused, with BAD_REQUEST or FORBIDDEN. |
| ProductApi.CheckApiCreate | src/server/api/routers/product.ts:21-41 | Returns the error of the first failing check of `create`, in source order. |
| ProductApi.Create | src/server/api/routers/product.ts:21-41 | Refused exactly when a check fails; a refusal changes nothing. Success appends the product under the slug derived from its name. |
| ProductApi.AsProductPatch | src/server/api/routers/product.ts:75-80 | The write sets a slug exactly when a new name is given, and then the slug derived from it. |
| ProductApi.SlugFollowsName | src/server/api/routers/product.ts:75-80 | After an update the slug is the one derived from the new name, or unchanged without one; the id is kept. |
| ProductApi.CheckApiUpdate | src/server/api/routers/product.ts:43-83 | Returns the error of the first failing check of `update`, in source order. |
| ProductApi.Update | src/server/api/routers/product.ts:43-83 | Schema, then role, then NOT_FOUND, then an internal error for a derived slug held by another product or a missing category. A refusal changes nothing; success patches only that row. |
| ProductApi.Delete | src/server/api/routers/product.ts:85-110 | FORBIDDEN unless ADMIN, NOT_FOUND for a missing product, an internal error when a link row still names it. A refusal changes nothing. Success removes exactly that product and returns it. |
| ProductApi.ApiGetById | src/server/api/routers/product.ts:163-181 | NOT_FOUND exactly when no product has the id; otherwise that product with its own category attached, as `WithCategory` gives it. |
| ProductApi.ApiOrdered | src/server/api/routers/product.ts:127-149 | A permutation of exactly the products that pass every filter, newest first. |
| ProductApi.FromCursor | src/server/api/routers/product.ts:127-149 | Without a cursor, all the ordered products; with one, a suffix that starts at the cursor's product when it is present. |
| ProductApi.ApiGetAll | src/server/api/routers/product.ts:112-161 | A limit outside [1, 100] is BAD_REQUEST. Otherwise the page from the cursor on has at most `limit` products, and the next cursor is the id of the first product left out. |
| ProductApi.TakePage | src/server/api/routers/product.ts:151-155 | Reads `limit + 1` products and pops the extra one: the page holds the first `limit`, and a next cursor appears exactly when more remain. |
| ProductApi.OrderedIdsUnique | src/server/api/routers/product.ts:127-149 | With unique product ids, the ordered matches have unique ids. |
| ProductApi.NextPageContinues | src/server/api/routers/product.ts:151-155 | Following the next cursor resumes exactly after the last product of the page. |
| ProductApi.FeaturedFalseExcludesFeatured | src/server/api/routers/product.ts:127-149 | Here `isFeatured: false` does filter: no featured product is listed. |
| Promotions.WithProducts | src/server/modules/promotion.ts:29-42 | Pairs each promotion, in order, with its linked products. |
| Promotions.GetActive | src/server/modules/promotion.ts:29-42 | Lists only promotions that are active with `now` inside their window, each with its linked products. |
| Promotions.GetActiveComplete | src/server/modules/promotion.ts:29-42 | Every promotion running at `now` is listed. |
| Promotions.GetByProductId | src/server/modules/promotion.ts:52-66 | Lists only promotions running at `now` that are linked to the product. |
| Promotions.GetByProductIdComplete | src/server/modules/promotion.ts:52-66 | Every running promotion linked to the product is listed. |
| Promotions.EndsNoLaterOrders | src/server/modules/promotion.ts:79-99 | Ordering by end date is a total preorder. |
| Promotions.SoonestEndingFirst | src/server/modules/promotion.ts:79-99 | A permutation sorted by end date ascending. |
| Promotions.AdminListing | src/server/modules/promotion.ts:79-99 | Exactly the promotions the filters admit, soonest ending first. |
| Promotions.GetAll | src/server/modules/promotion.ts:70-100 | The guard's error when the session is not admitted. Otherwise each listed promotion passes the filters and carries exactly its linked products, and the list is ordered by end date. |
| Promotions.GetAllComplete | src/server/modules/promotion.ts:70-100 | Every promotion the filters admit is listed. |
| Promotions.LinksFor | src/server/modules/promotion.ts:131-138 | One link row per supplied product id, in order. |
| Promotions.LinksAccepted | src/server/modules/promotion.ts:131-138 | A batch of product ids is refused exactly when its link rows would repeat a (product, promotion) key or name no product. |
| Promotions.Unlink | src/server/modules/promotion.ts:182-200 | Keeps exactly the link rows of other promotions. |
| Promotions.ReplacedLinksExact | src/server/modules/promotion.ts:182-200 | After the replacement, the promotion is linked to exactly the supplied products. |
| Promotions.ReplacedLinksKeepOthers | src/server/modules/promotion.ts:182-200 | Link rows of other promotions survive the replacement, and no others appear. |
| Promotions.LinkedProductsAppend | src/server/modules/promotion.ts:29-42 | The linked products of two concatenated link tables are the concatenation of each one's. |
| Promotions.LinksForOthersEmpty | src/server/modules/promotion.ts:131-138 | The new links of one promotion name no product for another. |
| Promotions.UnlinkKeepsOthers | src/server/modules/promotion.ts:182-200 | Unlinking one promotion leaves every other promotion's products unchanged. |
| Promotions.ReplaceKeepsOtherProducts | src/server/modules/promotion.ts:182-200 | Replacing one promotion's links leaves every other promotion's product list unchanged. |
| Promotions.AddLinksKeepsOtherProducts | src/server/modules/promotion.ts:131-138 | Adding a new promotion's links leaves every other promotion's product list unchanged. |
| Promotions.AppendKeepsValid | src/server/modules/promotion.ts:102-141 | Appending a promotion with a fresh id and a free code keeps the tables valid, both without its links and with an accepted batch of them. |
| Promotions.CheckCreate | src/server/modules/promotion.ts:102-121 | Returns the error of the first failing check of `create`, in source order: guard, schema, CONFLICT for a non-empty taken code, an internal error for a taken empty one. |
| Promotions.Create | src/server/modules/promotion.ts:102-141 | Guard, then schema, then CONFLICT for a non-empty code already held; such a rejection changes nothing. Otherwise the promotion is appended under a fresh id. OK exactly when the link batch is accepted, and then one link per product id is added; a refused batch leaves the promotion without links and ends in an internal error. |
| Promotions.CheckUpdate | src/server/modules/promotion.ts:143-203 | Returns the error of the first failing check of `update` after the guard, in source order, ending with the store's refusal of an empty code held elsewhere or of the link batch. |
| Promotions.OwnCodeFree | src/server/modules/promotion.ts:163-174 | No other promotion holds a promotion's own code. |
| Promotions.ReplaceKeepsValid | src/server/modules/promotion.ts:182-200 | Patching a promotion in place with its own id and a free code, and replacing its links by an accepted batch, keeps the tables valid. |
| Promotions.ReplaceLinksKeepValid | src/server/modules/promotion.ts:182-200 | Replacing an existing promotion's links by an accepted batch keeps the link keys unique and every link pointing at an existing promotion and product. |
| Promotions.Update | src/server/modules/promotion.ts:143-203 | Guard, then schema, then NOT_FOUND, then CONFLICT for a new code held elsewhere, then an internal error when the transaction is refused (an empty code held elsewhere, or a link batch with a repeated or unknown product id). A rejection changes nothing. Success patches that row, switching it on when `isActive` is omitted, and replaces its links when product ids are given. |
| Promotions.OmittedIsActiveSwitchesOn | src/server/modules/promotion.ts:20 | An update that omits `isActive` leaves the promotion active, because the partial schema keeps the default. |
| Promotions.Rewrite | src/server/modules/promotion.ts:182-200 | The transaction: the promotion row becomes the patched one and the links are replaced. |
| Promotions.RemoveKeepsValid | src/server/modules/promotion.ts:205-229 | Removing a promotion with its links keeps the tables valid. |
| Promotions.Delete | src/server/modules/promotion.ts:205-229 | Guard, then NOT_FOUND exactly when the promotion is missing. Success removes the promotion and all its link rows. |
| Auth.Signin | src/server/modules/auth.ts:11-53 | OK exactly for a well-formed e-mail of a verified user with a stored, non-empty password that matches. Errors are BAD_REQUEST, NOT_FOUND or UNAUTHORIZED, and success returns that user's account. |
| Auth.EmptyPasswordNotFound | src/server/modules/auth.ts:25-30 | A stored empty password counts as none: NOT_FOUND whatever the verification state. |
| Auth.UnverifiedRefusedBeforeCompare | src/server/modules/auth.ts:21-52 | An unverified account is refused whatever password is offered. |
| Auth.AppendUserKeepsValid | src/server/modules/auth.ts:77-91 | Appending a user with a fresh id and a free e-mail keeps the user table valid. |
| Auth.Signup | src/server/modules/auth.ts:55-108 | BAD_REQUEST for a malformed input, CONFLICT for a taken e-mail; a rejection changes nothing. Otherwise an unverified customer with a 24-hour token is appended, and the call succeeds exactly when the mail was sent. |
| Auth.TokenHolder | src/server/modules/auth.ts:114-128 | The first user holding the token unexpired, if any. |
| Auth.VerifyEmail | src/server/modules/auth.ts:110-149 | BAD_REQUEST, with nothing changed, exactly when no user holds the token unexpired. Otherwise that user becomes verified with the token cleared, and no other row changes. |
| Auth.VerificationSingleUse | src/server/modules/auth.ts:110-149 | A verified user no longer holds the token. |
| Auth.ForgotPassword | src/server/modules/auth.ts:151-186 | BAD_REQUEST for a malformed e-mail. An unknown e-mail gets OK with nothing changed. A known one gets a one-hour reset token, and the call succeeds exactly when the mail was sent. |
| Auth.SignupVerifySignin | src/server/modules/auth.ts:11-149 | After signing up, the new user cannot sign in until the token is presented before it expires; afterwards the right password signs in. |

## Left out

- Image and other URL validation is not modelled; such fields are plain strings.
- Prices and discounts are integers (cents), not floating point.
- `page` and `limit` are `z.number()`, so fractional values pass the schemas and reach the store's `skip` and `take`. The model takes integers only.
- zod's `.min(n)` counts UTF-16 code units, while the model counts characters. A one-character name outside the Basic Multilingual Plane, such as an emoji, passes `min(2)` in the program and fails in the model.
- Lower-casing covers ASCII only: `toLowerCase` and the store's case-insensitive match are not modelled on other alphabets.
- `LIKE` wildcards in a search term are taken literally.
- Names are ordered by code point (`orderBy: { name: 'asc' }` in the category listing and the navigation). The store orders by its collation, which may be locale-aware or case-insensitive: under such a collation "apple" sorts before "Banana", while by code point it sorts after. Collations are not modelled.
- Reviews, the user join of product details, and the other routers are not part of this model.
- The database schema file is not part of this model. The model assumes that slugs, promotion codes and e-mails are unique, that the link table has the composite unique key `productId_promotionId` (the key the seed script upserts through), and that its `product` and `promotion` relations are foreign keys.
- ProductAdmin.Delete: takes the default rule of a required relation, Restrict, so a product that a link row names cannot be deleted. Under a Cascade rule the delete would succeed and remove those link rows; that variant is not modelled. Reviews and order items, which can also block the delete, are not part of this model.
- ProductApi.Delete: the same Restrict reading as ProductAdmin.Delete; a cascading delete is not modelled.
- Password hashing and comparison, random tokens, the clock and e-mail syntax are parameters. Mail delivery is the boolean `mailSent`: a failed delivery leaves the write done and returns an internal error.
- `protectedProcedure` is assumed to supply a signed-in user.
- The default role of a new user is assumed to be the customer role.
- The date fields of the promotion schema are carried without the `dateRangeSchema` refinement, as zod version 4 reads them; zod version 3 semantics are not modelled. Parsing of `new Date(...)` is not modelled.
- Sorts are modelled by one fixed stable sort in the requested order. The store promises no order among ties, and that order may differ from one query to the next; the model does not capture this.
- ProductRouter.EveryMatchIsListed: holds because every page query in the model orders ties the same way. The store may order products with equal `createdAt` differently across queries, so in the program a match can be skipped or repeated across pages.
- ProductApi.NextPageContinues: holds because the model orders ties the same way in both queries. With equal `createdAt` values the store may order them differently, so the next page need not resume right after the last product.
- A cursor naming no product yields an empty page. A cursor naming a product that exists but fails the filters also yields an empty page in the model. The store positions a cursor by the row it names, so it would start from that product's place in the order instead; this case is not modelled.
- Ids are natural numbers issued by the store, so empty-string ids are not representable.
- `Promise.all` and `$transaction` are treated as atomic, so a refused `update` of a promotion rolls back in full. Promotion `create` writes the promotion and then its links outside any transaction; the model takes a refused link batch as refused whole, leaving the promotion without links.
- Auth.VerificationSingleUse: follows from the definition of a verified user with no proof work.
- Promotions.GetAll: states that each listed promotion passes the filters and the order; that every admitted promotion is listed is the separate lemma Promotions.GetAllComplete.
