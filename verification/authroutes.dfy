/** The authentication routes (`routers/auth.py`) as transitions of a small state
    machine over the users table and the denylist: `/register`, `/login`, `/refresh`
    and `/logout`. Password hashing, password checking and fresh token ids come from
    libraries and are parameters. */
module AuthRoutes {
  import opened Outcomes
  import opened Text
  import opened Auth

  datatype AuthState = AuthState(users: Users, denylist: Denylist)

  /** The registration form (`CreateUserSchema`); `scopes` defaults to "me". */
  datatype Registration = Registration(
    name: string, email: string, photo: string, password: string, passwordConfirm: string, scopes: string)

  function Fail(status: int, detail: string): HttpError {
    HttpError(status, detail, None)
  }

  /** Every stored email is in lower case. */
  predicate LowerEmails(users: Users) {
    forall i :: 0 <= i < |users| ==> Lower(users[i].email) == users[i].email
  }

  /** No two stored users share an email. */
  predicate UniqueEmails(users: Users) {
    forall i, j :: 0 <= i < j < |users| ==> users[i].email != users[j].email
  }

  predicate UniqueIds(users: Users) {
    forall i, j :: 0 <= i < j < |users| ==> users[i].id != users[j].id
  }

  /** The invariant registration keeps. */
  predicate Registered(users: Users) {
    LowerEmails(users) && UniqueEmails(users)
  }

  /** `create_user(payload)`: `require_user` with the "admin" scope, then the check for an
      existing account with the lower-cased email, then the password confirmation.
      The new user gets the id `newId` (`uuid4`) and the stored password `hash(password)`. */
  function CreateUser(s: AuthState, access: Presented, form: Registration, newId: string, hash: string -> string)
    : (r: Result<(AuthState, User), HttpError>)
    ensures RequireUser(["admin"], s.users, s.denylist, access).Err? ==>
      r == Err(RequireUser(["admin"], s.users, s.denylist, access).error)
    ensures RequireUser(["admin"], s.users, s.denylist, access).Ok? ==>
      && (FindByEmail(s.users, Lower(form.email)).Some? ==> r == Err(Fail(409, "Account already exist")))
      && (FindByEmail(s.users, Lower(form.email)).None? && form.password != form.passwordConfirm ==>
            r == Err(Fail(400, "Passwords do not match")))
      && (r.Ok? <==> FindByEmail(s.users, Lower(form.email)).None? && form.password == form.passwordConfirm)
    ensures r.Ok? ==>
      var (s', u) := r.value;
      && s'.users == s.users + [u] && s'.denylist == s.denylist
      && u.id == newId && u.name == form.name && u.photo == form.photo
      && u.email == Lower(form.email) && u.password == hash(form.password)
      && u.verified && u.role == "user" && u.scopes == Some(form.scopes)
      && u.createdBy == access.token.subject
  {
    var caller :- RequireUser(["admin"], s.users, s.denylist, access);
    var email := Lower(form.email);
    if FindByEmail(s.users, email).Some? then Err(Fail(409, "Account already exist"))
    else if form.password != form.passwordConfirm then Err(Fail(400, "Passwords do not match"))
    else
      var u := User(newId, form.name, email, form.photo, hash(form.password), true, "user",
                    access.token.subject, Some(form.scopes));
      Ok((AuthState(s.users + [u], s.denylist), u))
  }

  /** The second `jwt_required()` in `create_user` checks the token `require_user` has
      just accepted, so it cannot fail. */
  lemma CreateUserSecondCheckPasses(s: AuthState, access: Presented)
    requires RequireUser(["admin"], s.users, s.denylist, access).Ok?
    ensures JwtRequired(access, Access, s.denylist) == Ok(access.token)
  {
  }

  /** Registration keeps every stored email lower-case and unique, so no two users
      share an email even after lower-casing. */
  lemma CreateUserKeepsRegistered(s: AuthState, access: Presented, form: Registration, newId: string, hash: string -> string)
    requires Registered(s.users)
    ensures CreateUser(s, access, form, newId, hash).Ok? ==>
      Registered(CreateUser(s, access, form, newId, hash).value.0.users)
  {
    var r := CreateUser(s, access, form, newId, hash);
    if r.Ok? {
      var users := r.value.0.users;
      var u := r.value.1;
      LowerIdempotent(form.email);
      assert users == s.users + [u];
      forall i, j | 0 <= i < j < |users|
        ensures users[i].email != users[j].email
      {
        if j == |s.users| {
          assert users[i] == s.users[i];
        }
      }
    }
  }

  lemma RegisteredEmailsDifferInLowerCase(users: Users, i: int, j: int)
    requires Registered(users)
    requires 0 <= i < j < |users|
    ensures Lower(users[i].email) != Lower(users[j].email)
  {
  }

  /** With a fresh id the ids stay unique (the id column is the primary key). */
  lemma CreateUserKeepsIdsUnique(s: AuthState, access: Presented, form: Registration, newId: string, hash: string -> string)
    requires UniqueIds(s.users)
    requires forall i :: 0 <= i < |s.users| ==> s.users[i].id != newId
    ensures CreateUser(s, access, form, newId, hash).Ok? ==>
      UniqueIds(CreateUser(s, access, form, newId, hash).value.0.users)
  {
  }

  /** The tokens `login` issues. */
  datatype Tokens = Tokens(access: Token, refresh: Token)

  /** The `scopes` claim `login` puts in both tokens: the stored string split on ','. */
  function ScopesClaim(scopes: string): seq<string> {
    Split(scopes, ',')
  }

  /** `login(form_data)`: the lookup by lower-cased email, then the verification flag,
      then the password. `matches(password, stored)` is the password check; a user with
      no stored scopes makes `split` raise, which the framework answers with 500. */
  function Login(s: AuthState, username: string, password: string, matches: (string, string) -> bool,
                 accessJti: string, refreshJti: string): (r: Result<Tokens, HttpError>)
    ensures var user := FindByEmail(s.users, Lower(username));
      && (user.None? ==> r == Err(Fail(400, "Incorrect Email or Password")))
      && (user.Some? && !user.value.verified ==> r == Err(Fail(401, "Please verify your email address")))
      && (user.Some? && user.value.verified && !matches(password, user.value.password) ==>
            r == Err(Fail(400, "Incorrect Email or Password")))
      && (r.Ok? <==> user.Some? && user.value.verified && matches(password, user.value.password)
                     && user.value.scopes.Some?)
      && (r.Ok? ==>
            && r.value.access == Token(accessJti, Access, Some(user.value.id), Some(ScopesClaim(user.value.scopes.value)))
            && r.value.refresh == Token(refreshJti, Refresh, Some(user.value.id), Some(ScopesClaim(user.value.scopes.value))))
  {
    match FindByEmail(s.users, Lower(username))
    case None => Err(Fail(400, "Incorrect Email or Password"))
    case Some(u) =>
      if !u.verified then Err(Fail(401, "Please verify your email address"))
      else if !matches(password, u.password) then Err(Fail(400, "Incorrect Email or Password"))
      else if u.scopes.None? then Err(Fail(500, "Internal Server Error"))
      else
        var claim := Some(ScopesClaim(u.scopes.value));
        Ok(Tokens(Token(accessJti, Access, Some(u.id), claim), Token(refreshJti, Refresh, Some(u.id), claim)))
  }

  /** The scopes claim loses nothing: joining its pieces with ',' gives back the
      stored string. */
  lemma ScopesClaimRoundTrip(scopes: string)
    ensures Join(ScopesClaim(scopes), ',') == scopes
  {
    JoinSplit(scopes, ',');
  }

  /** The answer for an unknown email and for a wrong password of a verified account is
      the same. An unverified account is still told apart: it gets a 401 before its
      password is checked. */
  lemma UnknownEmailAnswersLikeWrongPassword(s: AuthState, s': AuthState, username: string, username': string,
                                             password: string, matches: (string, string) -> bool, accessJti: string, refreshJti: string)
    requires FindByEmail(s.users, Lower(username)).None?
    requires FindByEmail(s'.users, Lower(username')).Some? && FindByEmail(s'.users, Lower(username')).value.verified
    requires !matches(password, FindByEmail(s'.users, Lower(username')).value.password)
    ensures Login(s, username, password, matches, accessJti, refreshJti)
         == Login(s', username', password, matches, accessJti, refreshJti)
  {
  }

  lemma FindByIdUnique(users: Users, k: int)
    requires UniqueIds(users) && 0 <= k < |users|
    ensures FindById(users, Some(users[k].id)) == Some(users[k])
  {
    if k > 0 {
      assert UniqueIds(users[1..]) by {
        forall i, j | 0 <= i < j < |users[1..]|
          ensures users[1..][i].id != users[1..][j].id
        {
          assert users[1..][i] == users[i + 1] && users[1..][j] == users[j + 1];
        }
      }
      assert users[1..][k - 1] == users[k];
      FindByIdUnique(users[1..], k - 1);
    }
  }

  /** A fresh access token from `login` opens every route whose required scopes are among
      the user's stored scopes, as long as its id has not been revoked. */
  lemma LoginThenAccess(s: AuthState, username: string, password: string, matches: (string, string) -> bool,
                        accessJti: string, refreshJti: string, required: seq<string>)
    requires UniqueIds(s.users)
    requires Login(s, username, password, matches, accessJti, refreshJti).Ok?
    requires accessJti !in s.denylist
    requires forall i :: 0 <= i < |required| ==>
      required[i] in ScopesClaim(FindByEmail(s.users, Lower(username)).value.scopes.value)
    ensures var t := Login(s, username, password, matches, accessJti, refreshJti).value.access;
      RequireUser(required, s.users, s.denylist, Decoded(t))
        == Ok(FindByEmail(s.users, Lower(username)).value.id)
  {
    var u := FindByEmail(s.users, Lower(username)).value;
    var k :| 0 <= k < |s.users| && s.users[k] == u;
    FindByIdUnique(s.users, k);
  }

  /** `refresh_token()`: `require_user` on the access token first; then, inside the `try`,
      the refresh token check and the user lookup, every failure becoming a 400 whose
      detail is "Please provide refresh token" for a missing token and the exception's
      class name otherwise. The new access token carries no `scopes` claim. */
  function RefreshToken(s: AuthState, access: Presented, refresh: Presented, newJti: string): (r: Result<Token, HttpError>)
    ensures RequireUser([], s.users, s.denylist, access).Err? ==>
      r == Err(RequireUser([], s.users, s.denylist, access).error)
    ensures RequireUser([], s.users, s.denylist, access).Ok? ==>
      var checked := JwtRequired(refresh, Refresh, s.denylist);
      && (refresh.NoToken? ==> r == Err(Fail(400, "Please provide refresh token")))
      && (checked.Err? && !refresh.NoToken? ==> r == Err(Fail(400, checked.error)))
      && (checked.Ok? && (refresh.token.subject.None? || refresh.token.subject.value == ""
                          || FindById(s.users, refresh.token.subject).None?) ==>
            r == Err(Fail(400, "HTTPException")))
    ensures r.Ok? <==>
      && RequireUser([], s.users, s.denylist, access).Ok?
      && JwtRequired(refresh, Refresh, s.denylist).Ok?
      && refresh.token.subject.Some? && refresh.token.subject.value != ""
      && FindById(s.users, refresh.token.subject).Some?
    ensures r.Ok? ==> r.value == Token(newJti, Access, refresh.token.subject, None)
  {
    var _ :- RequireUser([], s.users, s.denylist, access);
    match JwtRequired(refresh, Refresh, s.denylist)
    case Err(errorClass) =>
      Err(Fail(400, if errorClass == "MissingTokenError" then "Please provide refresh token" else errorClass))
    case Ok(t) =>
      if t.subject.None? || t.subject.value == "" then Err(Fail(400, "HTTPException"))
      else match FindById(s.users, t.subject)
        case None => Err(Fail(400, "HTTPException"))
        case Some(u) => Ok(Token(newJti, Access, Some(u.id), None))
  }

  /** With the library looking in cookies and headers, the access and the refresh check
      can find the same token. `/refresh` then never succeeds: a token that passes as an
      access token is not a refresh token. */
  lemma RefreshWithOneTokenFails(s: AuthState, p: Presented, newJti: string)
    ensures RefreshToken(s, p, p, newJti).Err?
    ensures RequireUser([], s.users, s.denylist, p).Ok? ==>
      RefreshToken(s, p, p, newJti) == Err(Fail(400, "RefreshTokenRequired"))
  {
  }

  /** A refreshed access token has no `scopes` claim, so it is refused with "Not enough
      permissions" by every route that requires a scope, even for the admin who had
      the scope before. */
  lemma RefreshedTokenHasNoScopes(s: AuthState, access: Presented, refresh: Presented, newJti: string, required: seq<string>)
    requires |required| > 0
    requires RefreshToken(s, access, refresh, newJti).Ok?
    ensures var t := RefreshToken(s, access, refresh, newJti).value;
      RequireUser(required, s.users, s.denylist, Decoded(t)).Err?
  {
    NoScopesClaim(required, s.users, s.denylist, Decoded(RefreshToken(s, access, refresh, newJti).value));
  }

  /** `logout()`: `require_user`, then the access token's id goes on the denylist. */
  function Logout(s: AuthState, access: Presented): (r: Result<AuthState, HttpError>)
    ensures r.Ok? <==> RequireUser([], s.users, s.denylist, access).Ok?
    ensures r.Err? ==> r.error == RequireUser([], s.users, s.denylist, access).error
    ensures r.Ok? ==> r.value.users == s.users && r.value.denylist == s.denylist + {access.token.jti}
  {
    var _ :- RequireUser([], s.users, s.denylist, access);
    Ok(AuthState(s.users, s.denylist + {access.token.jti}))
  }

  /** After a logout the same access token is refused on every route. */
  lemma LoggedOutTokenIsRefused(s: AuthState, access: Presented, required: seq<string>)
    requires Logout(s, access).Ok?
    ensures var s' := Logout(s, access).value;
      RequireUser(required, s'.users, s'.denylist, access) == Err(Fail(401, "Token is invalid or has expired"))
  {
    RequireUserDetails(required, s.users, Logout(s, access).value.denylist, access);
  }

  /** A request to one of the four routes, with the values the libraries supply. */
  datatype Action =
    | Register(access: Presented, form: Registration, newId: string)
    | LogIn(username: string, password: string, accessJti: string, refreshJti: string)
    | RefreshAccess(access: Presented, refresh: Presented, newJti: string)
    | LogOut(access: Presented)

  /** The state after one request: a failed request changes nothing, and only
      registration and logout change anything on success. */
  function Step(s: AuthState, a: Action, hash: string -> string, matches: (string, string) -> bool): AuthState {
    match a
    case Register(access, form, newId) =>
      var r := CreateUser(s, access, form, newId, hash);
      if r.Ok? then r.value.0 else s
    case LogIn(_, _, _, _) => s
    case RefreshAccess(_, _, _) => s
    case LogOut(access) =>
      var r := Logout(s, access);
      if r.Ok? then r.value else s
  }

  function Run(s: AuthState, actions: seq<Action>, hash: string -> string, matches: (string, string) -> bool): AuthState
    decreases |actions|
  {
    if |actions| == 0 then s else Run(Step(s, actions[0], hash, matches), actions[1..], hash, matches)
  }

  /** Over any sequence of requests the denylist only grows and the users table keeps
      its lower-case, unique emails; users are only ever appended. */
  lemma {:induction false} RunInvariants(s: AuthState, actions: seq<Action>, hash: string -> string, matches: (string, string) -> bool)
    requires Registered(s.users)
    ensures s.denylist <= Run(s, actions, hash, matches).denylist
    ensures Registered(Run(s, actions, hash, matches).users)
    ensures s.users <= Run(s, actions, hash, matches).users
    decreases |actions|
  {
    if |actions| > 0 {
      var s1 := Step(s, actions[0], hash, matches);
      if actions[0].Register? {
        CreateUserKeepsRegistered(s, actions[0].access, actions[0].form, actions[0].newId, hash);
      }
      RunInvariants(s1, actions[1..], hash, matches);
    }
  }

  /** Once revoked, an access token stays refused whatever requests follow. */
  lemma RevokedStaysRevoked(s: AuthState, actions: seq<Action>, hash: string -> string, matches: (string, string) -> bool,
                            access: Presented, required: seq<string>)
    requires Registered(s.users)
    requires access.Decoded? && access.token.jti in s.denylist
    ensures var s' := Run(s, actions, hash, matches);
      RequireUser(required, s'.users, s'.denylist, access) == Err(Fail(401, "Token is invalid or has expired"))
  {
    RunInvariants(s, actions, hash, matches);
    var s' := Run(s, actions, hash, matches);
    RequireUserDetails(required, s'.users, s'.denylist, access);
  }
}
