/** Access control (`app/oauth2.py`): the revoked-token denylist, the outcome of the JWT
    library's token checks, and the `require_user` dependency that turns a request's
    access token into the id of a verified user holding the required scopes. */
module Auth {
  import opened Outcomes
  import opened Text

  datatype TokenKind = Access | Refresh

  /** The claims this service reads from a decoded token: the unique id `jti`, the token
      type, the subject (a user id) and the optional `scopes` claim. */
  datatype Token = Token(jti: string, kind: TokenKind, subject: Option<string>, scopes: Option<seq<string>>)

  /** What a request carries where the library looks for one kind of token: nothing,
      something whose header cannot be read, something that does not decode (bad
      signature, expired, malformed), or a decoded token. */
  datatype Presented = NoToken | BadHeader | Undecodable | Decoded(token: Token)

  /** The set of revoked `jti`s (`denylist`); it starts empty. */
  type Denylist = set<string>

  const InitialDenylist: Denylist := {}

  /** `check_if_token_in_denylist`: the loader the library calls on every decoded token. */
  predicate IsRevoked(denylist: Denylist, t: Token) {
    t.jti in denylist
  }

  function KindRequiredError(kind: TokenKind): string {
    if kind == Access then "AccessTokenRequired" else "RefreshTokenRequired"
  }

  /** `Authorize.jwt_required()` / `jwt_refresh_token_required()`: the decoded token, or
      the class name of the exception the library raises. The library looks for the
      token, decodes it, asks the denylist loader (both token kinds are checked) and
      then checks the token's type. */
  function JwtRequired(p: Presented, kind: TokenKind, denylist: Denylist): (r: Result<Token, string>)
    ensures r.Ok? <==> p.Decoded? && p.token.kind == kind && !IsRevoked(denylist, p.token)
    ensures r.Ok? ==> r.value == p.token
    ensures r.Err? ==> r.error in {"MissingTokenError", "InvalidHeaderError", "JWTDecodeError",
                                   "RevokedTokenError", KindRequiredError(kind)}
    ensures r == Err("MissingTokenError") <==> p.NoToken?
    ensures r == Err("RevokedTokenError") <==> p.Decoded? && IsRevoked(denylist, p.token)
    ensures r == Err(KindRequiredError(kind)) <==> p.Decoded? && !IsRevoked(denylist, p.token) && p.token.kind != kind
  {
    match p
    case NoToken => Err("MissingTokenError")
    case BadHeader => Err("InvalidHeaderError")
    case Undecodable => Err("JWTDecodeError")
    case Decoded(t) =>
      if IsRevoked(denylist, t) then Err("RevokedTokenError")
      else if t.kind != kind then Err(KindRequiredError(kind))
      else Ok(t)
  }

  /** The stored fields of a user (`models.User`) that the handlers read or write. */
  datatype User = User(
    id: string, name: string, email: string, photo: string, password: string,
    verified: bool, role: string, createdBy: Option<string>, scopes: Option<string>)

  /** The users table, in the order the database returns rows. */
  type Users = seq<User>

  /** `query(User).filter(User.id == id).first()`; a missing subject matches nobody. */
  function FindById(users: Users, id: Option<string>): (r: Option<User>)
    ensures r.Some? <==> id.Some? && exists k :: 0 <= k < |users| && users[k].id == id.value
    ensures r.Some? ==> r.value in users && r.value.id == id.value
  {
    if id.None? || |users| == 0 then None
    else if users[0].id == id.value then Some(users[0])
    else FindById(users[1..], id)
  }

  /** `query(User).filter(User.email == email).first()`. */
  function FindByEmail(users: Users, email: string): (r: Option<User>)
    ensures r.Some? <==> exists k :: 0 <= k < |users| && users[k].email == email
    ensures r.Some? ==> r.value in users && r.value.email == email
  {
    if |users| == 0 then None
    else if users[0].email == email then Some(users[0])
    else FindByEmail(users[1..], email)
  }

  /** An `HTTPException`: status, detail and the optional `WWW-Authenticate` header. */
  datatype HttpError = HttpError(status: int, detail: string, authenticate: Option<string>)

  /** The `WWW-Authenticate` value: `Bearer scope="<scopes joined by spaces>"` when the
      route requires scopes, plain `Bearer` otherwise. */
  function AuthenticateValue(required: seq<string>): (v: string)
    ensures |required| == 0 <==> v == "Bearer"
    ensures |required| > 0 ==> |v| >= 15 && v[..14] == "Bearer scope=\"" && v[|v| - 1] == '"'
  {
    if |required| > 0 then "Bearer scope=\"" + Join(required, ' ') + "\"" else "Bearer"
  }

  /** The quoted part of a scoped `WWW-Authenticate` value names exactly the required
      scopes: splitting it on spaces gives them back, in order, when no scope holds a
      space. */
  lemma AuthenticateValueNamesScopes(required: seq<string>)
    requires |required| > 0
    requires forall k :: 0 <= k < |required| ==> ' ' !in required[k]
    ensures Split(AuthenticateValue(required)[14..|AuthenticateValue(required)| - 1], ' ') == required
  {
    var v := AuthenticateValue(required);
    assert v[14..|v| - 1] == Join(required, ' ');
    SplitJoin(required, ' ');
  }

  /** The `except` clause of `require_user`: every exception becomes a 401 whose detail
      depends only on the exception's class name. */
  function Classify(errorClass: string): (e: HttpError)
    ensures e.status == 401 && e.authenticate.None?
    ensures e.detail in {"You are not logged in", "User no longer exist", "Please verify your account",
                         "Token is invalid or has expired"}
  {
    var detail :=
      if errorClass == "MissingTokenError" then "You are not logged in"
      else if errorClass == "UserNotFound" then "User no longer exist"
      else if errorClass == "NotVerified" then "Please verify your account"
      else "Token is invalid or has expired";
    HttpError(401, detail, None)
  }

  /** The body of the `try` block: the token check, then the user lookup, then the
      verification flag, with the class name of the first exception raised. */
  function Authenticate(users: Users, denylist: Denylist, access: Presented): (r: Result<(User, Token), string>)
    ensures r.Ok? ==> r.value.0.verified && Some(r.value.0) == FindById(users, r.value.1.subject)
  {
    var t :- JwtRequired(access, Access, denylist);
    match FindById(users, t.subject)
    case None => Err("UserNotFound")
    case Some(u) => if !u.verified then Err("NotVerified") else Ok((u, t))
  }

  /** The `scopes` claim, or the empty list when the token has none. */
  function GrantedScopes(t: Token): seq<string> {
    if t.scopes.Some? then t.scopes.value else []
  }

  /** Every required scope is granted. */
  predicate Granted(required: seq<string>, granted: seq<string>) {
    forall i :: 0 <= i < |required| ==> required[i] in granted
  }

  /** `require_user(security_scopes)`: the id of the token's user, or the 401 to send. */
  function RequireUser(required: seq<string>, users: Users, denylist: Denylist, access: Presented)
    : (r: Result<string, HttpError>)
    ensures r.Ok? <==>
      && access.Decoded? && access.token.kind == Access && !IsRevoked(denylist, access.token)
      && FindById(users, access.token.subject).Some?
      && FindById(users, access.token.subject).value.verified
      && Granted(required, GrantedScopes(access.token))
    ensures r.Ok? ==> r.value == FindById(users, access.token.subject).value.id
    ensures r.Err? ==> r.error.status == 401
    ensures r.Err? ==> (r.error.detail == "Not enough permissions" <==> r.error.authenticate.Some?)
    ensures r.Err? && r.error.authenticate.Some? ==> r.error.authenticate.value == AuthenticateValue(required)
  {
    match Authenticate(users, denylist, access)
    case Err(errorClass) => Err(Classify(errorClass))
    case Ok((u, t)) =>
      if Granted(required, GrantedScopes(t)) then Ok(u.id)
      else Err(HttpError(401, "Not enough permissions", Some(AuthenticateValue(required))))
  }

  /** The detail of every `require_user` failure, in the order the checks run. */
  lemma RequireUserDetails(required: seq<string>, users: Users, denylist: Denylist, access: Presented)
    ensures access.NoToken? ==> RequireUser(required, users, denylist, access) == Err(HttpError(401, "You are not logged in", None))
    ensures access.Decoded? && access.token.kind == Access && !IsRevoked(denylist, access.token) ==>
      var user := FindById(users, access.token.subject);
      && (user.None? ==> RequireUser(required, users, denylist, access) == Err(HttpError(401, "User no longer exist", None)))
      && (user.Some? && !user.value.verified ==>
            RequireUser(required, users, denylist, access) == Err(HttpError(401, "Please verify your account", None)))
      && (user.Some? && user.value.verified && !Granted(required, GrantedScopes(access.token)) ==>
            RequireUser(required, users, denylist, access)
              == Err(HttpError(401, "Not enough permissions", Some(AuthenticateValue(required)))))
    ensures (access.BadHeader? || access.Undecodable?
             || (access.Decoded? && (access.token.kind != Access || IsRevoked(denylist, access.token)))) ==>
      RequireUser(required, users, denylist, access) == Err(HttpError(401, "Token is invalid or has expired", None))
  {
  }

  /** The user lookup comes first: a token whose user is gone never gets the
      not-verified answer. */
  lemma MissingUserIsNeverUnverified(required: seq<string>, users: Users, denylist: Denylist, access: Presented)
    requires access.Decoded? && FindById(users, access.token.subject).None?
    ensures RequireUser(required, users, denylist, access).Err?
    ensures RequireUser(required, users, denylist, access).error.detail != "Please verify your account"
  {
  }

  /** A token without a `scopes` claim satisfies only routes that require no scope. */
  lemma NoScopesClaim(required: seq<string>, users: Users, denylist: Denylist, access: Presented)
    requires access.Decoded? && access.token.scopes.None?
    ensures RequireUser(required, users, denylist, access).Ok? ==> |required| == 0
  {
    if |required| > 0 {
      assert !Granted(required, GrantedScopes(access.token)) by {
        assert required[0] !in GrantedScopes(access.token);
      }
    }
  }

  /** Nothing is revoked before the first logout. */
  lemma NothingRevokedInitially(t: Token)
    ensures !IsRevoked(InitialDenylist, t)
  {
  }
}
