/** The middleware chains of the routes: which routes pass through the
    authentication middleware before their handler, and the three-stage
    chain of the image upload route.
 */
module Routes {
  import opened Wrappers
  import opened Strings
  import opened Js
  import opened Http
  import opened Auth
  import opened R2
  import opened Upload

  /** The product and upload routes. */
  datatype Route =
    | ListAll         // GET /products
    | ByBarcode       // GET /products/barcode/:barcode
    | ById            // GET /products/:id
    | CreateOne       // POST /products
    | UpdateOne       // PUT /products/:id
    | DeleteOne       // DELETE /products/:id
    | UploadImageFile // POST /upload/image

  /** The routes whose chain starts with `authenticateToken`. No route
      includes `requireAdmin`: any authenticated user may write. */
  predicate Protected(route: Route) {
    route in {CreateOne, UpdateOne, DeleteOne, UploadImageFile}
  }

  /** The response to a request on `route`, where `handler` is what the
      route's handler would answer for the authenticated user. */
  function Dispatch(route: Route, header: Option<string>, verify: string -> Verification,
                    lookup: string -> Lookup, handler: Option<User> -> Response): (r: Response)
    ensures !Protected(route) ==> r == handler(None)
    ensures Protected(route) && BearerToken(header).None? ==> r == Plain(401, "Access token required")
    ensures Protected(route) && Authenticate(header, verify, lookup).Continue? ==>
      r == handler(Some(Authenticate(header, verify, lookup).value))
    ensures Protected(route) && Authenticate(header, verify, lookup).Halt? ==>
      r.status in {401, 403, 500}
    ensures Protected(route) && Authenticate(header, verify, lookup).Halt? ==>
      r == Authenticate(header, verify, lookup).response
  {
    if !Protected(route) then handler(None)
    else
      match Authenticate(header, verify, lookup)
      case Halt(response) => response
      case Continue(user) => handler(Some(user))
  }

  /** A protected route's handler is reached only with a token: a request
      without one gets 401 whatever the handler would have done. */
  lemma WritesNeedToken(route: Route, header: Option<string>, verify: string -> Verification,
                        lookup: string -> Lookup, h1: Option<User> -> Response, h2: Option<User> -> Response)
    requires Protected(route) && BearerToken(header).None?
    ensures Dispatch(route, header, verify, lookup, h1) == Dispatch(route, header, verify, lookup, h2)
    ensures Dispatch(route, header, verify, lookup, h1).status == 401
  {
  }

  /** `POST /upload/image`: authentication, then the form parser and its
      error classification, then the upload handler. `part` is the request's
      `image` file, if any. */
  function UploadRoute(header: Option<string>, verify: string -> Verification, lookup: string -> Lookup,
                       part: Option<File>, env: Env, id: string, put: PutRequest -> Option<JsError>): (r: Response)
    ensures r.status == 200 <==>
      && Authenticate(header, verify, lookup).Continue?
      && part.Some? && StartsWith(part.value.mimetype, "image/") && part.value.size <= MaxFileSize
      && UploadToR2(part.value, Some("products"), env, id, put).Success?
    ensures Authenticate(header, verify, lookup).Halt? ==> r == Authenticate(header, verify, lookup).response
    ensures Authenticate(header, verify, lookup).Continue? && part.None? ==>
      r == Coded(400, "No image file provided", "NO_FILE")
    ensures Authenticate(header, verify, lookup).Continue? && ParseImageField(part).Failure? ==>
      r == ParserErrorResponse(ParseImageField(part).error)
    ensures Authenticate(header, verify, lookup).Continue? && ParseImageField(part).Success? ==>
      r == UploadImage(part, env, id, put)
  {
    match Authenticate(header, verify, lookup)
    case Halt(response) => response
    case Continue(_) =>
      match UploadMiddleware(ParseImageField(part))
      case Halt(response) => response
      case Continue(file) => UploadImage(file, env, id, put)
  }

  /** An unauthenticated upload never reaches the parser or the storage. */
  lemma UnauthenticatedUploadSkipsStorage(header: Option<string>, verify: string -> Verification,
                                          lookup: string -> Lookup, part1: Option<File>, part2: Option<File>,
                                          env: Env, id: string, put1: PutRequest -> Option<JsError>,
                                          put2: PutRequest -> Option<JsError>)
    requires Authenticate(header, verify, lookup).Halt?
    ensures UploadRoute(header, verify, lookup, part1, env, id, put1) ==
      UploadRoute(header, verify, lookup, part2, env, id, put2)
  {
  }
}
