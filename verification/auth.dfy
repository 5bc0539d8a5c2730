/** The authentication middleware: extraction of the token from the
    `Authorization` header, the decision table over the token verifier's and
    the user lookup's outcomes, and the admin gate. Signature checking and the
    database are not modelled; their outcomes are inputs.
 */
module Auth {
  import opened Wrappers
  import opened Strings
  import opened Js
  import opened Http

  /** A row of the `users` table, as far as the middleware looks at it. */
  datatype User = User(id: string, username: string, role: Option<string>)

  /** The outcome of verifying a token: its decoded user id, or the error
      the verifier throws (its `name` tells malformed from expired tokens). */
  datatype Verification = Decoded(userId: string) | VerifyThrew(error: JsError)

  /** The outcome of looking the user up by id: the query's error object, the
      row it returned (possibly none), or an exception the query threw. */
  datatype Lookup = LookupFailed | Found(user: Option<User>) | LookupThrew(error: JsError)

  /** `authHeader && authHeader.split(' ')[1]`, as far as it is truthy: the
      second space-separated piece of the header, when there is one and it
      is not empty. */
  function BearerToken(header: Option<string>): (r: Option<string>)
    ensures r.Some? ==> header.Some? && r.value != "" && ' ' !in r.value
    ensures header.Some? && ' ' !in header.value ==> r.None?
  {
    match header
    case None => None
    case Some(h) =>
      var parts := Split(h, ' ');
      if |parts| >= 2 && parts[1] != "" then Some(parts[1]) else None
  }

  /** Any first word is accepted as the scheme: the token is the word after
      the first space, up to the next space or the end of the header. */
  lemma SchemeNotChecked(scheme: string, token: string, rest: string)
    requires ' ' !in scheme && ' ' !in token && token != ""
    requires rest == "" || rest[0] == ' '
    ensures BearerToken(Some(scheme + " " + (token + rest))) == Some(token)
  {
    var header := scheme + " " + (token + rest);
    assert header == scheme + [' '] + (token + rest);
    SplitCons(scheme, ' ', token + rest);
    SplitHead(token, ' ', rest);
    assert Split(header, ' ')[1] == Split(token + rest, ' ')[0];
  }

  /** What follows the second piece of a header split on spaces: nothing,
      or a space and the remaining pieces. */
  function AfterSecond(parts: seq<string>): string
    requires |parts| >= 2
  {
    if |parts| == 2 then "" else [' '] + Join(parts[2..], ' ')
  }

  /** A header is its first piece, a space, and then its second piece
      followed by the rest. */
  lemma SplitSecond(h: string)
    requires |Split(h, ' ')| >= 2
    ensures var parts := Split(h, ' ');
      h == parts[0] + " " + (parts[1] + AfterSecond(parts))
  {
    var parts := Split(h, ' ');
    var tail := parts[1..];
    JoinSplit(h, ' ');
    assert h == parts[0] + [' '] + Join(tail, ' ');
    assert Join(tail, ' ') == parts[1] + AfterSecond(parts) by {
      if |parts| > 2 {
        assert tail[1..] == parts[2..];
      }
    }
  }

  /** Conversely, every token found is the second piece of the header: it
      follows the first word and a space, and is followed by a space or by
      the end of the header. */
  lemma TokenShape(h: string)
    requires BearerToken(Some(h)).Some?
    ensures var parts := Split(h, ' ');
      && ' ' !in parts[0]
      && (AfterSecond(parts) == "" || AfterSecond(parts)[0] == ' ')
      && h == parts[0] + " " + (BearerToken(Some(h)).value + AfterSecond(parts))
  {
    SplitSecond(h);
  }

  /** Two spaces after the scheme leave an empty second piece: no token. */
  lemma DoubleSpaceNoToken(scheme: string, rest: string)
    requires ' ' !in scheme
    ensures BearerToken(Some(scheme + "  " + rest)) == None
  {
    assert scheme + "  " + rest == scheme + [' '] + ("" + [' '] + rest);
    SplitCons(scheme, ' ', "" + [' '] + rest);
    SplitCons("", ' ', rest);
  }

  /** The response for an error thrown while verifying or looking up. */
  function ThrownResponse(e: JsError): (r: Response)
    ensures r.status == 403 <==> e.name in {"JsonWebTokenError", "TokenExpiredError"}
    ensures r.status == 500 <==> e.name !in {"JsonWebTokenError", "TokenExpiredError"}
    ensures e.name == "JsonWebTokenError" ==> r == Plain(403, "Invalid token format")
    ensures e.name == "TokenExpiredError" ==> r == Plain(403, "Token expired")
    ensures r.status == 500 ==> r.body == ErrorBody("Authentication error", None, Some(e.message))
  {
    if e.name == "JsonWebTokenError" then Plain(403, "Invalid token format")
    else if e.name == "TokenExpiredError" then Plain(403, "Token expired")
    else Response(500, ErrorBody("Authentication error", None, Some(e.message)))
  }

  /** `authenticateToken`: Continue(user) stands for setting `req.user` and
      calling `next`; Halt for answering without calling it. `verify` and
      `lookup` are the token verifier (under the configured secret) and the
      query for the user row by id. */
  function Authenticate(header: Option<string>, verify: string -> Verification, lookup: string -> Lookup)
    : (r: Flow<User>)
    ensures r.Continue? <==>
      && BearerToken(header).Some?
      && verify(BearerToken(header).value).Decoded?
      && lookup(verify(BearerToken(header).value).userId).Found?
      && lookup(verify(BearerToken(header).value).userId).user.Some?
    ensures r.Continue? ==> lookup(verify(BearerToken(header).value).userId) == Found(Some(r.value))
    ensures BearerToken(header).None? <==> r.Halt? && r.response == Plain(401, "Access token required")
    ensures r.Halt? ==> r.response.status in {401, 403, 500}
    ensures (BearerToken(header).Some? && verify(BearerToken(header).value).Decoded? &&
      lookup(verify(BearerToken(header).value).userId) in {LookupFailed, Found(None)}) ==>
      r == Halt(Plain(403, "Invalid token"))
    ensures BearerToken(header).Some? && verify(BearerToken(header).value).VerifyThrew? ==>
      r == Halt(ThrownResponse(verify(BearerToken(header).value).error))
    ensures (BearerToken(header).Some? && verify(BearerToken(header).value).Decoded? &&
      lookup(verify(BearerToken(header).value).userId).LookupThrew?) ==>
      r == Halt(ThrownResponse(lookup(verify(BearerToken(header).value).userId).error))
  {
    match BearerToken(header)
    case None => Halt(Plain(401, "Access token required"))
    case Some(token) =>
      match verify(token)
      case VerifyThrew(e) => Halt(ThrownResponse(e))
      case Decoded(userId) =>
        match lookup(userId)
        case LookupThrew(e) => Halt(ThrownResponse(e))
        case LookupFailed => Halt(Plain(403, "Invalid token"))
        case Found(None) => Halt(Plain(403, "Invalid token"))
        case Found(Some(user)) => Continue(user)
  }

  /** Without a token neither the verifier nor the lookup is consulted. */
  lemma NoTokenSkipsVerification(header: Option<string>,
                                 v1: string -> Verification, v2: string -> Verification,
                                 l1: string -> Lookup, l2: string -> Lookup)
    requires BearerToken(header).None?
    ensures Authenticate(header, v1, l1) == Authenticate(header, v2, l2)
  {
  }

  /** A token the verifier rejects is never looked up. */
  lemma RejectedTokenSkipsLookup(header: Option<string>, verify: string -> Verification,
                                 l1: string -> Lookup, l2: string -> Lookup)
    requires BearerToken(header).Some? && verify(BearerToken(header).value).VerifyThrew?
    ensures Authenticate(header, verify, l1) == Authenticate(header, verify, l2)
  {
  }

  /** `requireAdmin`: passes the user on iff its role is exactly "admin". */
  function RequireAdmin(user: User): (r: Flow<User>)
    ensures r.Continue? <==> user.role == Some("admin")
    ensures r.Continue? ==> r.value == user
    ensures r.Halt? ==> r.response == Plain(403, "Admin access required")
  {
    if user.role == Some("admin") then Continue(user) else Halt(Plain(403, "Admin access required"))
  }
}
