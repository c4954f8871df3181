# Product catalog API, modelled in Dafny

This project models the server-side product catalog of a small ASP.NET Core
API backed by PostgreSQL through EF Core. The core is the `ProductsController`
(search with paging, lookup, create, full-record update, delete, and an
AI-drafted description) and its `Product` entity (validation attributes and
`GetDescriptionForDisplay`).

Modules, one per source concern:

- `Wrappers` (`wrappers.dfy`): `Option`, the model of a nullable reference.
- `DotNetText` (`dotnet_text.dfy`): the .NET string behaviour the search needs:
  `char.IsWhiteSpace`, `string.IsNullOrEmpty`, `string.IsNullOrWhiteSpace`,
  ASCII `ToLower`, and ordinal `Contains`, proved equal to "is a substring".
- `IntParsing` (`int_parsing.dfy`): `int.TryParse` with `NumberStyles.Integer`.
  It allows white space before and after the number, then trailing NULs. It
  takes an optional `+` or `-`, then ASCII digits. The value must fit in 32 bits.
- `Products` (`product.dfy`): the `Product` record. `Price` is an integer
  count of thousandths, which is the `numeric(9,3)` column. The record comes
  with its validity predicate and `GetDescriptionForDisplay`.
- `Catalog` (`catalog.dfy`): the `GetProducts` query pipeline as pure
  functions over the table value. The pipeline filters, counts, orders by
  `Id` descending, then applies `Skip` and `Take`. It also gives the
  page count. Lemmas state the search, ordering and paging properties.
- `Controllers` (`products_controller.dfy`): class `ProductsController`. It
  holds the `Products` table as a `map<int32, Product>` and the identity
  sequence as `nextId`. Its methods are the actions that change or read single
  rows. The module also holds `GenerateDescription`, with the chat client
  passed in as a function.

Modelling choices:

- Each request is one atomic step on the table.
- The `[ApiController]` attribute makes ASP.NET Core validate the body before
  the action runs. So `CreateProduct` and `UpdateProduct` answer BadRequest for
  a product that fails validation. They validate the price with the intended
  bound of 0 to 1000. The `Range` check as written also admits prices from
  -0.500 to 1000.500 (see Findings), so those prices are refused here but
  stored by the source.
- `Skip` and `Take` run on an EF Core query, so they reach PostgreSQL as
  `OFFSET` and `LIMIT`. A negative `OFFSET` is an error there, not an empty skip.
- `CreateProduct` follows EF Core's key rule. An `Id` of 0 (the CLR default)
  is generated by the identity column; the sequence starts at 1. Any other
  `Id` is inserted as given. An insert on an existing key fails with a server
  error. So does a sequence past the largest `int`.
- `UpdateProduct`: the table has no row-version column. So the concurrency
  exception arises exactly when the `UPDATE` touches no row, that is, when the
  row is absent. The action then rechecks with `ProductExists`, finds no row,
  and answers NotFound. The rethrow branch returns `ServerError(ConcurrencyConflict)`.
  It is unreachable when requests are atomic.
- `TotalPages` uses `Math.Ceiling` over a `double`. For 32-bit operands this
  equals the integer ceiling: a non-integral quotient `a/b` lies at least `1/b`
  from an integer, and the rounding error of the division is smaller than that.
  The model uses the integer ceiling.
- A page count `page` and size `pageSize` of at least 1 are preconditions.
  The source gives no meaning to other values.

## Model

| member | source | states |
|---|---|---|
| `DotNetText.ContainsIsSubstring` | DotNetCorePostgresReactTailwind.API/Controllers/ProductController.cs:37-38 | the ordinal `Contains` scan is true exactly when the needle occurs at some position of the string |
| `IntParsing.TryParse` | DotNetCorePostgresReactTailwind.API/Controllers/ProductController.cs:31 | `int.TryParse` under `NumberStyles.Integer`; it succeeds only on a term holding an ASCII digit, so a term without one always takes the text-search branch |
| `IntParsing.TryParseFormat` | DotNetCorePostgresReactTailwind.API/Controllers/ProductController.cs:31 | the decimal text of every integer parses back to that integer when it fits in 32 bits, and fails to parse when it does not |
| `Products.IsValid` | DotNetCorePostgresReactTailwind.API/Models/Product.cs:8-16 | a valid product has a non-empty name, a price from 0 to 1000 units in thousandths, and a null description or one of at most 4098 characters |
| `Products.RoundHalfToEven` | DotNetCorePostgresReactTailwind.API/Models/Product.cs:11-13 | `Convert.ToInt32` of a price: the nearest whole unit, a tie going to the even unit |
| `Products.PriceInRangeAsWritten` | DotNetCorePostgresReactTailwind.API/Models/Product.cs:11-13 | the `Range(0, 1000)` check on a decimal, comparing the price rounded by `Convert.ToInt32`, accepts exactly the prices from -0.500 to 1000.500 |
| `Products.RangeAttributeAcceptsNegativePrice` | DotNetCorePostgresReactTailwind.API/Models/Product.cs:11-13 | prices -0.400 and 1000.400 pass the attribute but lie outside 0..1000 |
| `Products.PriceInRangePassesAttribute` | DotNetCorePostgresReactTailwind.API/Models/Product.cs:11-13 | every price in 0..1000 also passes the attribute, so the corrected bound only removes the out-of-range prices |
| `Products.GetDescriptionForDisplay` | DotNetCorePostgresReactTailwind.API/Models/Product.cs:18-35 | empty exactly for a null or blank description; at most 68 characters; a long description becomes its first 64 characters plus " ..."; a short one is returned unchanged; always a prefix of the description, or such a prefix plus " ..." |
| `Catalog.FilterFor` | DotNetCorePostgresReactTailwind.API/Controllers/ProductController.cs:29-40 | a null or empty term filters nothing; a term is an id search exactly when it is non-empty and `int.TryParse` accepts it, with the parsed id; every other term is a text search on that term |
| `Catalog.Matches` | DotNetCorePostgresReactTailwind.API/Controllers/ProductController.cs:33-38 | the `Where` predicate of each strategy; the text search keeps a product exactly when the lower-cased term is a substring of its lower-cased name or of its non-null lower-cased description |
| `Catalog.MaxId` | DotNetCorePostgresReactTailwind.API/Controllers/ProductController.cs:44 | the result belongs to the set and no id of the set exceeds it |
| `Catalog.OrderByIdDescending` | DotNetCorePostgresReactTailwind.API/Controllers/ProductController.cs:44 | lists every id of the set once, and only those, in strictly decreasing order |
| `Catalog.OrderingIsUnique` | DotNetCorePostgresReactTailwind.API/Controllers/ProductController.cs:44 | any strictly descending listing of the ids equals the ordering the query uses, so the order is fully determined |
| `Catalog.OrderedMatches` | DotNetCorePostgresReactTailwind.API/Controllers/ProductController.cs:29-44 | holds exactly the stored products the filter keeps, one per matching row, with strictly decreasing ids |
| `Catalog.Skip` | DotNetCorePostgresReactTailwind.API/Controllers/ProductController.cs:45 | SQL `OFFSET n` for a non-negative n: drops the first n rows, all of them for an n past the end |
| `Catalog.Take` | DotNetCorePostgresReactTailwind.API/Controllers/ProductController.cs:46 | SQL `LIMIT n` for a non-negative n: keeps the first n rows, all of them for an n past the end |
| `Catalog.CeilDiv` | DotNetCorePostgresReactTailwind.API/Controllers/ProductController.cs:53 | the fewest pages of the page size that hold the count: the count fits in that many pages but not in one fewer |
| `Catalog.GetProducts` | DotNetCorePostgresReactTailwind.API/Controllers/ProductController.cs:25-56 | `Page` is the requested page; `TotalCount` is the number of matching rows, whatever the page; `TotalPages` is the ceiling of the count over the page size; at most `pageSize` items; every item is a stored product the filter keeps |
| `Catalog.PageIsSliceOfOrderedMatches` | DotNetCorePostgresReactTailwind.API/Controllers/ProductController.cs:43-47 | `Data` is exactly the slice from `(page-1)*pageSize` to `(page-1)*pageSize + pageSize`, clipped to the end, of the matches ordered by id descending |
| `Catalog.PageLength` | DotNetCorePostgresReactTailwind.API/Controllers/ProductController.cs:42-54 | a page before the last is full, the last holds the remainder, and a page past `TotalPages` is empty |
| `Catalog.PagePastEndIsEmpty` | DotNetCorePostgresReactTailwind.API/Controllers/ProductController.cs:42-54 | a page past `TotalPages` has no items and reports the same `TotalCount` as the first page |
| `Catalog.PageIsOrderedByIdDescending` | DotNetCorePostgresReactTailwind.API/Controllers/ProductController.cs:44 | within a page the ids strictly decrease |
| `Catalog.EarlierPagesHaveHigherIds` | DotNetCorePostgresReactTailwind.API/Controllers/ProductController.cs:44-46 | every item of an earlier page has a higher id than every item of a later page |
| `Catalog.UnfilteredCountsEveryProduct` | DotNetCorePostgresReactTailwind.API/Controllers/ProductController.cs:29-42 | for a null or empty term `TotalCount` is the size of the table and every stored product is listed |
| `Catalog.IdSearchSelectsOnlyThatId` | DotNetCorePostgresReactTailwind.API/Controllers/ProductController.cs:31-33 | a term parsing as `n` counts 1 or 0 rows, whether or not names or descriptions contain its digits; page 1 holds exactly the product with id `n` when it exists, and later pages are empty |
| `Catalog.TextSearchMatchesNameOrDescription` | DotNetCorePostgresReactTailwind.API/Controllers/ProductController.cs:35-39 | a non-numeric term keeps a stored product exactly when its lower-cased name, or its non-null lower-cased description, has the lower-cased term as a substring; every returned item satisfies this |
| `Catalog.Wrap32` | DotNetCorePostgresReactTailwind.API/Controllers/ProductController.cs:45 | unchecked 32-bit arithmetic: a 32-bit value that differs from the exact one by a multiple of 2^32 |
| `Catalog.SkipCountAsWritten` | DotNetCorePostgresReactTailwind.API/Controllers/ProductController.cs:45 | the skip count computed in `int`; it equals `(page-1)*pageSize` whenever that fits in 32 bits |
| `Catalog.GetProductsAsWritten` | DotNetCorePostgresReactTailwind.API/Controllers/ProductController.cs:43-54 | the query with the wrapped skip count; it fails exactly when the wrapped count is negative, since PostgreSQL rejects a negative `OFFSET`; it agrees with `GetProducts` whenever the skip count fits in 32 bits |
| `Catalog.WrappedSkipServesFirstPageAgain` | DotNetCorePostgresReactTailwind.API/Controllers/ProductController.cs:45 | with one product, page 65537 of size 65536 lies past `TotalPages` = 1, yet the wrapped query returns that product; the corrected query returns nothing |
| `Catalog.WrappedSkipGoesNegative` | DotNetCorePostgresReactTailwind.API/Controllers/ProductController.cs:45 | page 32769 of size 65536 wraps the skip count to the smallest `int`, so that request fails for every table and term |
| `Catalog.OutOfRangeNumberIsText` | DotNetCorePostgresReactTailwind.API/Controllers/ProductController.cs:29-39 | a number outside the 32-bit range, written in decimal, does not parse and is searched as text |
| `Controllers.ProductsController.constructor` | DotNetCorePostgresReactTailwind.API/Models/ApplicationDbContext.cs:7 | an empty `Products` table whose identity sequence starts at 1 |
| `Controllers.ProductsController.ProductExists` | DotNetCorePostgresReactTailwind.API/Controllers/ProductController.cs:123-126 | true exactly when a row with that id is stored |
| `Controllers.ProductsController.GetProduct` | DotNetCorePostgresReactTailwind.API/Controllers/ProductController.cs:58-66 | Ok with the stored product when the id is present, NotFound otherwise; reads only |
| `Controllers.ProductsController.CreateProduct` | DotNetCorePostgresReactTailwind.API/Controllers/ProductController.cs:68-75 | an invalid product is refused; id 0 takes the next sequence value, any other id is used as given; the new row is the input with that id, added under a key that was free, every other row unchanged; a taken key or exhausted sequence is a server error with the table unchanged; validity of every stored row is kept |
| `Controllers.ProductsController.UpdateProduct` | DotNetCorePostgresReactTailwind.API/Controllers/ProductController.cs:77-96 | BadRequest with no change when the product is invalid or its id differs from the route's; an existing row is replaced whole and nothing else changes; a missing row gives NotFound with no change |
| `Controllers.ProductsController.DeleteProduct` | DotNetCorePostgresReactTailwind.API/Controllers/ProductController.cs:98-109 | NotFound with no change when the id is absent; otherwise exactly that key is removed |
| `Controllers.CreateThenGet` | DotNetCorePostgresReactTailwind.API/Controllers/ProductController.cs:58-75 | after a successful create, `GetProduct` on the assigned id returns the stored product, which is the input with only the id changed |
| `Controllers.PromptEmbedsName` | DotNetCorePostgresReactTailwind.API/Controllers/ProductController.cs:115-118 | the prompt sent to the chat model contains the product name verbatim |
| `Controllers.GenerateDescription` | DotNetCorePostgresReactTailwind.API/Controllers/ProductController.cs:111-121 | succeeds exactly when the chat call returns at least one text part; then it returns the fixed message and the first part |
| `Controllers.NameSearchFindsWidget` | DotNetCorePostgresReactTailwind.API/Controllers/ProductController.cs:35-54 | in a table holding only "Widget" with id 1, the term "widget" returns it on page 1 of 1 |
| `Controllers.IdSearchFindsWidget` | DotNetCorePostgresReactTailwind.API/Controllers/ProductController.cs:31-54 | in the same table the term "1" returns the same page through the id branch |
| `Controllers.WidgetSession` | DotNetCorePostgresReactTailwind.API/Controllers/ProductController.cs:25-109 | on an empty catalog: create "Widget", which gets id 1; find it by "widget" and by "1"; delete it; a later lookup is NotFound |

## Left out

- Authentication (`AuthController`) is not part of this model. It covers Google ID-token verification, JWT signing and the `[Authorize]` gate. This is cryptography done in library calls.
- Startup configuration in `Program.cs` is framework setup and is left out. That includes dependency injection, JWT bearer options, CORS and the storage retry policy.
- Asynchrony, EF change tracking and concurrent requests are left out. Each request is one atomic step, so two interleaved updates of one row are not modelled.
- `Controllers.ProductsController.UpdateProduct`: the rethrow branch would need another request to re-insert the row between the failed save and the recheck. So the model never returns `ServerError(ConcurrencyConflict)`.
- `GenerateDescription`: the Azure OpenAI chat call is a parameter, its reply given as text parts. Timeouts, quotas and response shape beyond "no part" are not modelled.
- Culture-specific `ToLower` and PostgreSQL's `lower()` under a database collation are replaced by ASCII lower-casing. Non-ASCII letters are compared as they are.
- Strings are sequences of UTF-16 code units. Characters outside the Basic Multilingual Plane, and `Substring` splitting a surrogate pair, are not modelled.
- `IntParsing.TryParse` uses the invariant culture's sign symbols. Cultures with other sign symbols are not modelled.
- Prices with more than three fractional digits, which the `numeric(9,3)` column rounds, are outside the model. Prices are whole thousandths.
- `Products.PriceInRangeAsWritten` ignores the `OverflowException` that `Convert.ToInt32` raises for prices beyond the 32-bit range. It treats them as out of range.
- `page < 1` and `pageSize < 1` are excluded by precondition. The source gives them no defined meaning.
- `Catalog.GetProducts`: the default arguments `page = 1` and `pageSize = 50` are not modelled; every call passes both.
- `Controllers.ProductsController.CreateProduct`: validates the price with the intended bound 0 to 1000 (`Products.IsValid`), not the `Range` check as written. A product priced from -0.500 to -0.001 or from 1000.001 to 1000.500 is refused here, where the source stores it.
- `Controllers.ProductsController.UpdateProduct`: validates with the same intended bound, so an update to such a price is refused here, where the source writes it.
- `Catalog.GetProductsAsWritten`: a failed request is `None`; the exception PostgreSQL raises for a negative `OFFSET`, and the HTTP 500 it becomes, are not modelled further.
- The React/TypeScript client is not part of this model. This includes its 50-character "Read more" cut and its page clamping.
- The schema files (`ApplicationDbContext.cs`, the migration) only declare the table. Their constraints are those of `Products.IsValid` and the `int32` key.

## Findings

| source | as written | input that shows it | evidently intended | confidence | as-written member | corrected member |
|---|---|---|---|---|---|---|
| DotNetCorePostgresReactTailwind.API/Controllers/ProductController.cs:45 | `(page - 1) * pageSize` is computed in unchecked 32-bit `int` arithmetic and can wrap | one stored product, `page` = 65537, `pageSize` = 65536: the skip count wraps to 0, so `Data` holds the product although `TotalPages` is 1 | a page past `TotalPages` is empty | medium (not executed) | `Catalog.WrappedSkipServesFirstPageAgain` | `Catalog.PagePastEndIsEmpty` |
| DotNetCorePostgresReactTailwind.API/Models/Product.cs:11-13 | `Range(0, 1000)` has `int` bounds, so it converts the decimal price with `Convert.ToInt32`, rounding half to even, before comparing | price -0.4 rounds to 0 and passes; so does 1000.4 | prices from 0 to 1000 inclusive | medium (not executed) | `Products.RangeAttributeAcceptsNegativePrice` | `Products.IsValid` |
