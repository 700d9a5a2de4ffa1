/** The server's authentication helpers and its login handler: reading the
    bearer token, the admin-role gate and the credential check. Verifying a
    token's signature and comparing a password with its bcrypt hash are
    library calls; they come in as function parameters. */
module Auth {
  import opened Common
  import opened Text

  /** What a session token carries: the identity signed at login. */
  datatype Claims = Claims(email: string, name: string, role: string)

  /** A row of the admins table, keyed by its email. */
  datatype AdminRow = AdminRow(passhash: string, name: string, role: string)

  /** The login answer: the signed token and the identity it carries. */
  datatype Session = Session(accessToken: string, user: Claims)

  const BearerPrefix: string := "Bearer "

  /** The token of an `Authorization` header: what follows "Bearer ", when the
      header has that prefix and something after it. */
  function BearerToken(header: Option<string>): (t: Option<string>)
    ensures t.Some? <==>
      header.Some? && StartsWith(header.value, BearerPrefix) && |header.value| > |BearerPrefix|
    ensures t.Some? ==> t.value != "" && BearerPrefix + t.value == header.value
  {
    var h := header.GetOr("");
    if StartsWith(h, BearerPrefix) && h[7..] != "" then Some(h[7..]) else None
  }

  /** A header built from a non-empty token gives that token back. */
  lemma BearerRoundTrip(t: string)
    requires t != ""
    ensures BearerToken(Some(BearerPrefix + t)) == Some(t)
  {
    assert (BearerPrefix + t)[7..] == t;
  }

  /** The `auth` middleware: no bearer token is 401 "No autorizado", a token
      that `verify` rejects is 401 "Token inválido", and otherwise the request
      goes on with the verified claims. `verify` stands for signature and
      expiry checking with the server's secret. */
  function Authenticate(header: Option<string>, verify: string -> Option<Claims>): (r: Result<Claims>)
    ensures r.Ok? <==> BearerToken(header).Some? && verify(BearerToken(header).value).Some?
    ensures r.Ok? ==> r.value == verify(BearerToken(header).value).value
    ensures r.Err? ==> r.error.status == 401
    ensures BearerToken(header).None? ==> r == Err(HttpError(401, "No autorizado"))
    ensures BearerToken(header).Some? && verify(BearerToken(header).value).None? ==>
      r == Err(HttpError(401, "Token inválido"))
  {
    match BearerToken(header)
    case None => Err(HttpError(401, "No autorizado"))
    case Some(t) =>
      match verify(t)
      case None => Err(HttpError(401, "Token inválido"))
      case Some(c) => Ok(c)
  }

  /** The `onlyAdmin` middleware: `None` lets the request through, which
      happens exactly when the caller's role is "admin"; anything else is 403. */
  function OnlyAdmin(user: Option<Claims>): (r: Option<HttpError>)
    ensures r.None? <==> user.Some? && user.value.role == "admin"
    ensures r.Some? ==> r.value == HttpError(403, "Requiere rol admin")
  {
    if user.Some? && user.value.role == "admin" then None
    else Some(HttpError(403, "Requiere rol admin"))
  }

  /** The guards in front of a route: `auth`, then `onlyAdmin` when the route
      has it. */
  function Admit(header: Option<string>, verify: string -> Option<Claims>, adminOnly: bool): (r: Result<Claims>)
    ensures r.Ok? <==>
      Authenticate(header, verify).Ok? && (adminOnly ==> Authenticate(header, verify).value.role == "admin")
    ensures r.Ok? ==> r.value == Authenticate(header, verify).value
    ensures Authenticate(header, verify).Err? ==> r.Err? && r.error.status == 401
    ensures Authenticate(header, verify).Ok? && r.Err? ==> r.error == HttpError(403, "Requiere rol admin")
  {
    match Authenticate(header, verify)
    case Err(e) => Err(e)
    case Ok(c) =>
      if !adminOnly then Ok(c)
      else match OnlyAdmin(Some(c))
        case None => Ok(c)
        case Some(e) => Err(e)
  }

  /** The login handler. A missing email or password is 400; an unknown email
      and a wrong password are the same 401; otherwise the token is signed over
      the row's email, name and role. `passwordMatches` stands for bcrypt's
      comparison and `sign` for signing a token with the server's secret. */
  function Login(email: Option<string>, password: Option<string>, admins: map<string, AdminRow>,
                 passwordMatches: (string, string) -> bool, sign: Claims -> string): (r: Result<Session>)
    ensures !Truthy(email) || !Truthy(password) ==> r == Err(HttpError(400, "Faltan credenciales"))
    ensures r.Ok? <==>
      Truthy(email) && Truthy(password) && email.value in admins &&
      passwordMatches(password.value, admins[email.value].passhash)
    ensures r.Ok? ==>
      var row := admins[email.value];
      r.value.user == Claims(email.value, row.name, row.role) && r.value.accessToken == sign(r.value.user)
    ensures Truthy(email) && Truthy(password) && r.Err? ==> r.error == HttpError(401, "Credenciales inválidas")
  {
    if !Truthy(email) || !Truthy(password) then
      Err(HttpError(400, "Faltan credenciales"))
    else if email.value !in admins then
      Err(HttpError(401, "Credenciales inválidas"))
    else
      var row := admins[email.value];
      if !passwordMatches(password.value, row.passhash) then
        Err(HttpError(401, "Credenciales inválidas"))
      else
        var user := Claims(email.value, row.name, row.role);
        Ok(Session(sign(user), user))
  }

  /** An unknown email and a known email with a wrong password cannot be told
      apart from the answer. */
  lemma LoginNoEnumeration(unknown: string, known: string, password: string, admins: map<string, AdminRow>,
                           passwordMatches: (string, string) -> bool, sign: Claims -> string)
    requires unknown != "" && known != "" && password != "" && unknown !in admins
    requires known in admins && !passwordMatches(password, admins[known].passhash)
    ensures Login(Some(unknown), Some(password), admins, passwordMatches, sign)
         == Login(Some(known), Some(password), admins, passwordMatches, sign)
  {
  }

  /** The answer to a successful login does not depend on the stored hash:
      two rows that differ only in their hash, and both accept the password,
      give the same session. */
  lemma LoginOmitsHash(email: string, password: string, admins: map<string, AdminRow>, h1: string, h2: string,
                       passwordMatches: (string, string) -> bool, sign: Claims -> string)
    requires email in admins && password != ""
    requires passwordMatches(password, h1) && passwordMatches(password, h2)
    ensures Login(Some(email), Some(password), admins[email := admins[email].(passhash := h1)], passwordMatches, sign)
         == Login(Some(email), Some(password), admins[email := admins[email].(passhash := h2)], passwordMatches, sign)
  {
  }
}
