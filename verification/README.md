# Product catalogue backend: decision procedures

This project models the decision logic of a small point-of-sale product
catalogue REST backend written in JavaScript (Express, Supabase/PostgREST,
an S3-compatible image store and JSON Web Tokens). Every handler of that
backend delegates its real work to a database or a storage SDK. Around each
delegation sits a pure decision procedure, and those procedures are modelled
here:

- **Products** (`products.dfy`): validation of create and update bodies.
  - The checks run in a fixed order and the first failure wins.
  - Create tests values for truthiness; update tests them with `!== undefined`.
  - Every price and the stock are bounded by 99,999,999.99, the largest
    `numeric(10, 2)`.
  - PostgreSQL SQLSTATE codes are translated into API errors: 23505
    unique_violation, 23503 foreign_key_violation and 22003
    numeric_value_out_of_range. PostgREST's `PGRST116` "no rows" code is
    translated as well.
  - The create, update and delete handlers each have an outcome table.
- **Pagination** (`pagination.dfy`): the offset/limit arithmetic of the
  listing and its `totalPages`.
- **R2** (`r2.dfy`): the image-storage service.
  - The environment variables are checked in a fixed order.
  - The file extension is chosen from the MIME type, falling back to the
    file name.
  - The object key and public URL are constructed from these.
  - Storage errors are mapped to messages.
  - The delete path extracts the key from the URL. Applied to an upload's
    URL, it returns that upload's key.
- **Upload** (`upload.dfy`): the upload controller.
  - The form parser's `image/` filter and its 5 MB limit.
  - The classification of parser errors.
  - The `NO_FILE` and 500 branches of the upload handler.
- **Auth** (`auth.dfy`): the authentication middleware.
  - The token is extracted by splitting the `Authorization` header on spaces.
  - The outcome table has 401, three kinds of 403, and 500.
  - The `requireAdmin` gate.
- **Routes** (`routes.dfy`): which routes pass through the authentication
  middleware, and the three-stage chain of the image upload route.

The other files are support modules:

- `wrappers.dfy`: `Option`, `Result`, and the first-match search that models
  a `for … of` loop with an early return.
- `strings.dfy`: the JavaScript string operations the code uses. These are
  `includes`, `startsWith`, `replace` with a string pattern, `split` on one
  character, `trim`, `toUpperCase` on ASCII, and `pop` of the last piece.
  A `Join` that inverts `split` is a helper for the proofs; the code itself
  never joins.
- `js.dfy`: JavaScript values that may be `undefined` or `null`,
  truthiness, template-literal interpolation, error objects, and HTTP
  responses.

External calls are inputs to the model, never performed:

- The database calls become result values (`WriteResult`, `ListResult`,
  `DbError`, `Lookup`).
- The storage SDK's upload and delete calls become functions from the
  request parameters to an optional error.
- The generated UUID is a parameter.
- `jwt.verify` becomes a function from the token to `Decoded(userId)` or
  the error it throws.
- The user lookup becomes a function from the user id to its outcome.
- The process environment is a map.

An Express middleware either answers or calls `next`. This is modelled as
`Flow<T>`: `Continue(value)` means `next` is called with the value attached
to the request, and `Halt(response)` means the middleware answers itself.

The code does not restrict `unit_type` to the four units its price fields
name (kg, ons, pcs, liter). Any string is accepted, and an unknown unit is
rejected only because `price_<unit>` is then missing. The model does the
same: `unitType` is any string, and the price is looked up under
`"price_" + unitType`.

## Model

| member | source | states |
|---|---|---|
| Seqs.FirstMatch | controllers/products.js:143-150 | the loop over the price fields stops at the first field that fails; no earlier field fails, and there is no result exactly when no field fails |
| Products.CreateFirstViolation | controllers/products.js:116-155 | create accepts a body exactly when it breaks none of the independently stated rules (name, category, unit type, unit price, price bound, stock bound); otherwise the rejection it reports is a broken rule of the highest priority |
| Products.UpdateFirstViolation | controllers/products.js:220-247 | the same first-failure policy for update, whose rules constrain only the properties present in the body |
| Products.FirstViolationReported | controllers/products.js:116-247 | both modes: accepted iff no rule is broken; otherwise the reported rejection is broken and no broken rule outranks it |
| Products.CreateAcceptance | controllers/products.js:116-155 | create accepts iff the name is non-blank, the category and the unit type are non-empty, `price_<unit>` is strictly positive, and every price and the stock are absent, null or at most 99,999,999.99 (equality passes) |
| Products.UpdateAcceptance | controllers/products.js:220-247 | update accepts iff a present name is non-blank, a present unit type has a positive price under `price_<unit>` in the same body, and every price and the stock are within the bound |
| Products.CreateAcceptedImpliesUpdateAccepted | controllers/products.js:220-247 | update never turns away a body that create accepts |
| Products.StockOnlyUpdate | controllers/products.js:245-247 | the body `{stock}` is checked only against the stock bound on update, while create rejects it for the missing name |
| Products.UnitPriceRejection | controllers/products.js:132-137 | with name, category and unit given, an absent, null, zero or negative price for the unit is rejected with "Valid price for <unit> is required", whatever the other prices are |
| Products.ExceedsMeansAboveBound | controllers/products.js:144-152 | the truthiness guard of create and the `!== undefined` guard of update both reject exactly a number strictly above the bound |
| Products.PriceMissingMeansNotPositive | controllers/products.js:134 | `!price \|\| price <= 0` rejects exactly the prices that are not strictly positive numbers |
| Products.NameMissingMeansNotGiven | controllers/products.js:117 | `!name \|\| !name.trim()` rejects exactly an absent, null, empty or all-white-space name |
| Products.OverflowModesAgree | controllers/products.js:237-243 | update's overflow loop reports the same field as create's loop, and none exactly when every price field is within the bound |
| Products.FirstOverflowIsEarliest | controllers/products.js:141-150 | the reported overflow field is over the bound and comes first, in kg, ons, pcs, liter order, among all fields over the bound |
| Products.OverflowMessageNamesUnit | controllers/products.js:147 | every price field is named `price_<unit>`, and its overflow message is that unit in upper case followed by " price cannot exceed 99,999,999.99" |
| Products.WriteErrorResponse | controllers/products.js:187-211 | a write error becomes 409 DUPLICATE_BARCODE "Product with this barcode already exists" iff 23505 with details mentioning barcode; 400 INVALID_CATEGORY "Invalid category selected" iff 23503 with details mentioning category_id; 400 NUMERIC_OVERFLOW with the overflow text iff 22003; otherwise 500 without a code, "Failed to create product" with the error message as details on create and "Failed to update product" on update |
| Products.TranslationsAgree | controllers/products.js:273-297 | update's error translation gives the same status and code as create's for every error; only the 500 bodies differ |
| Products.CreateProduct | controllers/products.js:111-213 | 201 with the inserted row iff the body is valid and the insert succeeds; a rejected body gets 400 with its message; a failed insert gets the translated error |
| Products.RejectedCreateSkipsInsert | controllers/products.js:116-158 | a rejected body never reaches the insert (the answer does not depend on it) and is a 400 without a code |
| Products.UpdateProduct | controllers/products.js:215-299 | 200 with the row iff the body is valid and the update returns a row; 404 "Product not found" without a code iff it returns no row; otherwise 400 for the rejection or the translated error |
| Products.RejectedUpdateSkipsUpdate | controllers/products.js:220-251 | a rejected body never reaches the update and is a 400 without a code |
| Products.DeleteProduct | controllers/products.js:301-339 | 404 "Product not found" without a code iff the existence check fails with PGRST116; 409 PRODUCT_IN_USE "Cannot delete product as it is referenced in sales records" iff the error that ends the request has code 23503, whatever its details; 500 "Failed to delete product" without a code for any other error; 200 iff neither the check nor the delete fails |
| Products.FailedCheckSkipsDelete | controllers/products.js:312-318 | once the existence check fails, the delete's outcome does not matter |
| Pagination.PageWindow | controllers/products.js:5-9 | page and limit default to 1 and 10; the row range holds exactly `limit` rows and page 1 starts at row 0 |
| Pagination.TotalPages | controllers/products.js:42 | for a positive limit, the least page count whose pages hold all rows (0 for no rows); for a negative limit, the ceiling of the negative quotient; null for a zero limit |
| Pagination.NextPageAdjacent | controllers/products.js:8-9 | the next page's range starts right after this page's range |
| Pagination.PagesDisjoint | controllers/products.js:8-9 | with a positive limit, an earlier page's range ends before a later page's range starts |
| Pagination.PagesCoverRows | controllers/products.js:8-42 | with a positive limit, every row below the total lies in a page between 1 and totalPages |
| Pagination.ListProducts | controllers/products.js:5-48 | the query is asked for the page's row range; 200 iff it succeeds, with its rows, the exact count and the page block; otherwise 500 "Failed to fetch products" |
| Pagination.ListQueriesPageRange | controllers/products.js:8-32 | the answer depends on the query only through its result for the range `(page - 1) * limit .. page * limit - 1` |
| R2.FirstUnset | services/r2Uploader.js:29-44 | the variable reported missing is the first unset one of R2_BUCKET_NAME, R2_ENDPOINT, R2_ACCESS_KEY_ID, R2_SECRET_ACCESS_KEY, R2_PUBLIC_URL; none is reported iff all are set |
| R2.FailureMessage | services/r2Uploader.js:94-107 | the error codes NoSuchBucket, InvalidAccessKeyId, SignatureDoesNotMatch and NetworkingError are examined in that order, each with its own message; then a DNS failure message; otherwise "R2 upload failed: " and the original message |
| R2.UnsetMessageIsNotDnsFailure | services/r2Uploader.js:103-106 | a missing-variable error never takes the DNS branch, so it is rethrown as a generic upload failure |
| R2.UploadToR2 | services/r2Uploader.js:15-109 | a URL is returned iff every variable is set and the storage upload succeeds; it is the public prefix followed by the uploaded key; every failure is a fresh error without a code, whose message is the wrapped missing-variable text or the storage error's mapped message |
| R2.UnsetVariableSkipsUpload | services/r2Uploader.js:29-68 | with a variable unset, the outcome does not depend on the storage upload |
| R2.ExtensionDetection | services/r2Uploader.js:46-54 | a known MIME type gives its fixed extension; otherwise the extension is the part of the file name after its last '.', or the whole name when it has no '.' |
| R2.KeyLayout | services/r2Uploader.js:55 | position by position, the key is the folder (default "products"), '/', the id, '.', and the extension, and nothing else |
| R2.ExtensionHasNoDot | services/r2Uploader.js:46-54 | no extension contains a '.' |
| R2.KeysIdentifyIds | services/r2Uploader.js:55 | in one folder, for ids without a '.', equal keys mean equal ids and equal extensions |
| R2.ForeignUrlIsWholeKey | services/r2Uploader.js:113 | a URL that does not contain the public prefix is used whole as the key to delete |
| R2.DeleteFromR2 | services/r2Uploader.js:111-126 | never fails: true iff the storage delete of the extracted key, in the configured bucket, succeeds |
| R2.UrlRoundTrip | services/r2Uploader.js:78-117 | deleting by the URL an upload returned addresses exactly the key that upload stored |
| Upload.FileFilter | controllers/upload.js:11-17 | accepts iff the MIME type starts with "image/"; a rejection is a plain error without a code carrying exactly "Only image files are allowed" |
| Upload.KnownTypesPassFilter | controllers/upload.js:11-17 | every MIME type the storage service maps to a fixed extension passes the filter |
| Upload.ParseImageField | controllers/upload.js:6-18 | the parser passes a file iff the filter accepts it and it is at most 5 × 1024 × 1024 bytes; a filter rejection takes precedence over the size |
| Upload.ParserErrorResponse | controllers/upload.js:39-57 | every parser error is a 400: "File too large" FILE_TOO_LARGE "Image must be smaller than 5MB" iff code LIMIT_FILE_SIZE; else "Invalid file type" INVALID_FILE_TYPE with the filter's text iff the filter's exact message; else "Upload error" UPLOAD_ERROR with the error's message as details |
| Upload.UploadMiddleware | controllers/upload.js:30-68 | `next` is called iff the parser reports no error, with the parsed file |
| Upload.UploadFailureResponse | controllers/upload.js:109-113 | a thrown error becomes 500 "Failed to upload image" with the error's message as details and its code, or UPLOAD_ERROR when it has none |
| Upload.UploadImage | controllers/upload.js:71-122 | no file gives 400 NO_FILE; 200 with the URL iff the storage upload succeeds; a failed upload is answered with the 500 of the thrown error |
| Upload.NoFileSkipsStorage | controllers/upload.js:81-90 | without a file, the answer does not depend on the storage or its configuration |
| Upload.StorageFailureCode | controllers/upload.js:109-113 | every failed upload answers 500 with code UPLOAD_ERROR, because the storage service never rethrows an error with a code |
| Upload.WrongTypeRejected | controllers/upload.js:11-50 | a non-image file is answered INVALID_FILE_TYPE, whatever its size |
| Upload.OversizedImageRejected | controllers/upload.js:8-44 | an image over the limit is answered FILE_TOO_LARGE |
| Auth.BearerToken | middlewares/auth.js:5-6 | a token found is non-empty and space-free, and a header without a space yields none |
| Auth.SchemeNotChecked | middlewares/auth.js:5-6 | any first word is accepted as the scheme: the token is the word after the first space, so the Bearer scheme of section 2.1 of RFC 6750 is not enforced |
| Auth.TokenShape | middlewares/auth.js:5-6 | conversely, a token found is what follows the space-free first word and one space, up to the next space or the end of the header |
| Auth.DoubleSpaceNoToken | middlewares/auth.js:5-11 | two spaces after the first word leave no token |
| Auth.ThrownResponse | middlewares/auth.js:39-48 | JsonWebTokenError gives exactly 403 "Invalid token format"; TokenExpiredError gives exactly 403 "Token expired"; any other error gives 500 "Authentication error" with its message |
| Auth.Authenticate | middlewares/auth.js:4-49 | `next` is called, with the user, iff a token is found, verifies, and its user id finds a row; no token is 401; a lookup error or no row is 403 "Invalid token"; an error thrown by the verifier or by the lookup is answered by its name |
| Auth.NoTokenSkipsVerification | middlewares/auth.js:8-15 | without a token, neither the verifier nor the lookup influences the answer |
| Auth.RejectedTokenSkipsLookup | middlewares/auth.js:13-24 | a token the verifier rejects is never looked up |
| Auth.RequireAdmin | middlewares/auth.js:51-56 | `next` is called iff the role is exactly "admin"; otherwise 403 "Admin access required" |
| Routes.Dispatch | routes/products.js:14-19 | reads reach their handler directly; create, update, delete and upload reach theirs only after authentication, and an unauthenticated request gets the middleware's own 401, 403 or 500 response |
| Routes.WritesNeedToken | routes/products.js:17-19 | a write without a token is 401, whatever its handler would do |
| Routes.UploadRoute | routes/upload.js:15 | authentication, then the parser, then the handler: a halted authentication answers for itself, a parser error gets its 400, a parsed request gets the handler's answer; 200 iff the caller authenticates, the file is an image of at most 5 MB, and the storage upload succeeds |
| Routes.UnauthenticatedUploadSkipsStorage | routes/upload.js:15 | an unauthenticated upload reaches neither the parser nor the storage |

## Left out

- JSON bodies whose properties have other types are not modelled: a number in `name`, a string in a price, or an object anywhere. Such values reach JavaScript's coercions, and a non-string name throws in `trim`. Text properties are strings and numeric properties are exact numbers.
- Products.ExceedsMeansAboveBound: prices are exact reals, so floating-point rounding near 99,999,999.99 is not modelled. `NaN` is not modelled either; a JSON body cannot carry it, and both guards would treat it as within the bound.
- The bound in the overflow messages is the fixed text "99,999,999.99". This is what `toLocaleString` prints in an en-US locale; other locales are not modelled.
- Pagination.PageWindow: `page` and `limit` are already integers. `parseInt` of arbitrary query strings and its `NaN` are not modelled. A negative or zero limit is still handled, up to the arithmetic of the response.
- The database queries themselves are modelled only through their outcomes. This covers query building, the `category_id` filter, the `ilike` search text, ordering, the joined category columns and the single-row fetches; the listing query is a function of the row range it is asked for. Also left out is whether PostgREST's `.single()` ever returns no row without an error.
- `getProductById` and `getProductByBarcode` are plain fetch-and-answer handlers and are not modelled.
- The storage SDK, the client's configuration, `uuidv4`, `dotenv`, and the file's bytes are external. Their outcomes and values are parameters.
- R2.Extension: a MIME type naming a property inherited by every JavaScript object (such as `constructor`) would hit the object's prototype in the extension map. This is not modelled.
- The multer library itself is not modelled. Upload.ParseImageField models the parser as seen through its configuration: the filter runs first, and a file larger than the limit fails with `LIMIT_FILE_SIZE`. Its other errors, such as an unexpected field or a malformed body, reach Upload.ParserErrorResponse as arbitrary errors.
- Upload.UploadFailureResponse: `error.code ||` is modelled for string codes. A non-string code, and the `errorName` and `debug` fields of the 500 body, are left out. They carry no decision.
- The verifier's cryptography, the secret it uses, and the decoded token's other claims are left out. A decoded token is just its user id.
- Logging (`console.log`/`console.error`) has no effect on any response and is left out.
- The development server, CORS preflight and Express routing mechanics are left out. Only the middleware chains of the routes are modelled.
