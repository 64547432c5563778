/** The authentication middleware of the HTTP layer: the bearer token taken
    from the Authorization header, the gate that requires a parsed token,
    and the gate that requires one of a set of roles.

    A handler's verdict is either to abort with a status and an error body
    or to go on to the next handler. The token parser (the JWT manager) is
    the parameter `parse`; the request context holds, under the user key,
    nothing, the claims, or a value of another type. */
module AuthMiddleware {
  import opened Domain
  import opened Text
  import Response

  datatype Claims = Claims(userId: Uuid, username: string, role: Role)

  /** The value stored under the user key of the request context. */
  datatype ContextValue = Missing | ClaimsValue(claims: Claims) | OtherValue

  /** The outcome of parsing a token: its claims, or the parser's error
      text. */
  datatype Parsed = Parsed(claims: Claims) | Rejected(reason: string)

  datatype Verdict = Abort(status: int, body: Response.Base<()>) | Next(claims: Claims)

  // ---------------------------------------------------------------------
  // extractToken
  // ---------------------------------------------------------------------

  /** strings.SplitN(s, " ", 2) when it yields two parts: the text before
      the first space and the text after it. */
  function SplitAtSpace(s: string): (r: Option<(string, string)>)
    ensures r.None? <==> ' ' !in s
    ensures r.Some? ==> s == r.value.0 + " " + r.value.1 && ' ' !in r.value.0
  {
    if s == [] then None
    else if s[0] == ' ' then Some(([], s[1..]))
    else match SplitAtSpace(s[1..])
      case None => None
      case Some((head, tail)) => Some(([s[0]] + head, tail))
  }

  /** The first space of s is where the split puts it. */
  lemma {:induction false} SplitAtSpaceUnique(s: string, head: string, tail: string)
    requires s == head + " " + tail && ' ' !in head
    ensures SplitAtSpace(s) == Some((head, tail))
    decreases |head|
  {
    if head == [] {
      assert s[0] == ' ' && s[1..] == tail;
    } else {
      assert s[0] == head[0] && head[0] in head;
      assert s[1..] == head[1..] + " " + tail;
      SplitAtSpaceUnique(s[1..], head[1..], tail);
      assert head == [head[0]] + head[1..];
    }
  }

  /** extractToken: the text after the first space, trimmed, when the text
      before it is "bearer" in any case; otherwise nothing. */
  function ExtractToken(header: string): string {
    if header == [] then []
    else match SplitAtSpace(header)
      case None => []
      case Some((scheme, rest)) => if ToLower(scheme) != "bearer" then [] else TrimSpace(rest)
  }

  /** A token comes only from a header "<scheme> <rest>" whose scheme is
      "bearer" in any case, and it is the trimmed rest; such a header always
      yields it. */
  lemma ExtractTokenIff(header: string, scheme: string, rest: string)
    requires header == scheme + " " + rest && ' ' !in scheme
    ensures ExtractToken(header) == (if ToLower(scheme) == "bearer" then TrimSpace(rest) else [])
  {
    SplitAtSpaceUnique(header, scheme, rest);
  }

  /** An empty header, or one without a space, gives no token. */
  lemma ExtractTokenNeedsSpace(header: string)
    ensures ' ' !in header ==> ExtractToken(header) == []
  {
  }

  /** A nonempty token has no surrounding white space. */
  lemma ExtractTokenTrimmed(header: string)
    ensures var t := ExtractToken(header); t != [] ==> !IsSpace(t[0]) && !IsSpace(t[|t| - 1])
  {
    var t := ExtractToken(header);
    if header != [] && SplitAtSpace(header).Some? {
      var rest := SplitAtSpace(header).value.1;
      TrimSpaceEnds(rest);
      assert t == [] || t == TrimSpace(rest);
    } else {
      assert t == [];
    }
  }

  /** The canonical scheme "Bearer" is accepted. */
  lemma LowerBearer()
    ensures ToLower("Bearer") == "bearer"
  {
    var lower := ToLower("Bearer");
    assert |lower| == 6;
    assert lower[0] == LowerChar('B') == 'b';
    assert lower[1] == 'e' && lower[2] == 'a' && lower[3] == 'r' && lower[4] == 'e' && lower[5] == 'r';
  }

  /** A header "<scheme> <token>" whose scheme is "bearer" in any case,
      such as the canonical "Bearer", gives back a trimmed token. */
  lemma ExtractTokenRoundTrip(scheme: string, token: string)
    requires ' ' !in scheme && ToLower(scheme) == "bearer"
    requires TrimSpace(token) == token
    ensures ExtractToken(scheme + " " + token) == token
  {
    ExtractTokenIff(scheme + " " + token, scheme, token);
  }

  // ---------------------------------------------------------------------
  // RequireAuth
  // ---------------------------------------------------------------------

  /** RequireAuth: no token is 401 before any parsing; a token the parser
      rejects is 401 with its reason; otherwise the claims go on. */
  function RequireAuth(header: string, parse: string -> Parsed): Verdict {
    var token := ExtractToken(header);
    if token == [] then
      Abort(Response.STATUS_UNAUTHORIZED, Response.ErrorBase("authorization token missing", ["authorization header missing"]))
    else match parse(token)
      case Rejected(reason) => Abort(Response.STATUS_UNAUTHORIZED, Response.ErrorBase("invalid token", [reason]))
      case Parsed(claims) => Next(claims)
  }

  /** The request goes on exactly when a token was found and parsed, with
      that token's claims; a missing token never reaches the parser. */
  lemma RequireAuthIff(header: string, parse: string -> Parsed)
    ensures RequireAuth(header, parse).Next? <==> ExtractToken(header) != [] && parse(ExtractToken(header)).Parsed?
    ensures RequireAuth(header, parse).Next? ==> RequireAuth(header, parse).claims == parse(ExtractToken(header)).claims
    ensures RequireAuth(header, parse).Abort? ==> RequireAuth(header, parse).status == Response.STATUS_UNAUTHORIZED
    ensures ExtractToken(header) == [] ==>
      forall parse' :: RequireAuth(header, parse') == RequireAuth(header, parse)
    ensures ExtractToken(header) == [] ==>
      RequireAuth(header, parse).body == Response.ErrorBase("authorization token missing", ["authorization header missing"])
    ensures ExtractToken(header) != [] && parse(ExtractToken(header)).Rejected? ==>
      RequireAuth(header, parse).body == Response.ErrorBase("invalid token", [parse(ExtractToken(header)).reason])
  {
  }

  // ---------------------------------------------------------------------
  // RequireRoles
  // ---------------------------------------------------------------------

  /** The role set RequireRoles builds once from its arguments. */
  method RoleSet(roles: seq<Role>) returns (roleSet: set<Role>)
    ensures forall r :: r in roleSet <==> r in roles
  {
    roleSet := {};
    var i := 0;
    while i < |roles|
      invariant 0 <= i <= |roles|
      invariant forall r :: r in roleSet <==> r in roles[..i]
    {
      assert roles[..i + 1] == roles[..i] + [roles[i]];
      roleSet := roleSet + {roles[i]};
      i := i + 1;
    }
    assert roles[..i] == roles;
  }

  /** The gate of RequireRoles for one request. */
  function RequireRoles(roleSet: set<Role>, value: ContextValue): Verdict {
    match value
    case Missing => Abort(Response.STATUS_UNAUTHORIZED, Response.ErrorBase("unauthorized", ["authentication required"]))
    case OtherValue => Abort(Response.STATUS_UNAUTHORIZED, Response.ErrorBase("unauthorized", ["invalid authentication context"]))
    case ClaimsValue(claims) =>
      if roleSet == {} then Next(claims)
      else if claims.role !in roleSet then
        Abort(Response.STATUS_FORBIDDEN, Response.ErrorBase("forbidden", ["insufficient permissions"]))
      else Next(claims)
  }

  /** A request goes on exactly when it carries claims whose role is in the
      set, or the set is empty; no claims is 401, a role outside the set is
      403. */
  lemma RequireRolesIff(roleSet: set<Role>, value: ContextValue)
    ensures RequireRoles(roleSet, value).Next? <==> value.ClaimsValue? && (roleSet == {} || value.claims.role in roleSet)
    ensures RequireRoles(roleSet, value).Next? ==> RequireRoles(roleSet, value).claims == value.claims
    ensures RequireRoles(roleSet, value).Abort? ==>
      RequireRoles(roleSet, value).status == (if value.ClaimsValue? then Response.STATUS_FORBIDDEN else Response.STATUS_UNAUTHORIZED)
  {
  }

  /** A request admitted by RequireAuth, which stores its claims, is never
      refused by RequireRoles as unauthenticated, and is admitted by the
      administrator gate exactly when its role is the administrator's. */
  lemma AuthThenAdminGate(header: string, parse: string -> Parsed)
    requires RequireAuth(header, parse).Next?
    ensures var v := ClaimsValue(RequireAuth(header, parse).claims);
      && (RequireRoles({ROLE_ADMIN}, v).Abort? ==> RequireRoles({ROLE_ADMIN}, v).status == Response.STATUS_FORBIDDEN)
      && (RequireRoles({ROLE_ADMIN}, v).Next? <==> RequireAuth(header, parse).claims.role == ROLE_ADMIN)
  {
  }

  /** GetUserClaims: the claims when the context holds them. */
  function GetUserClaims(value: ContextValue): (r: (Claims, bool))
    ensures r.1 <==> value.ClaimsValue?
    ensures r.1 ==> r.0 == value.claims
    ensures !r.1 ==> r.0 == Claims(0, [], Role([]))
  {
    match value
    case ClaimsValue(claims) => (claims, true)
    case _ => (Claims(0, [], Role([])), false)
  }

  /** Behind a passed gate the handler finds the claims that went on. */
  lemma GateThenClaims(roleSet: set<Role>, value: ContextValue)
    requires RequireRoles(roleSet, value).Next?
    ensures GetUserClaims(value) == (RequireRoles(roleSet, value).claims, true)
  {
  }
}
