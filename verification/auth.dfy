/** `POST /auth/login` and `authMiddleware` (preplensadmin/backend/index.js:260-286). Signing and
    verifying tokens are library calls: the login reply carries the claims that would be signed,
    and the middleware takes the verifier as a parameter. */
module Auth {
  import opened Js
  import opened JsString

  const AdminEmail: string := "admin@preplens.com"
  const BearerPrefix: string := "Bearer "

  /** The payload the login route signs. */
  datatype Claims = Claims(id: string, email: string, role: string)

  datatype LoginReply = Token(claims: Claims) | InvalidCredentials

  /** The development login: only the hard-coded admin address is accepted, and the password is
      never looked at. */
  function Login(email: Value, password: Value): (r: LoginReply)
    ensures r.Token? <==> email == Str(AdminEmail)
    ensures r.Token? ==> r.claims == Claims("devadmin", AdminEmail, "admin")
  {
    if email == Str(AdminEmail) then Token(Claims("devadmin", email.s, "admin")) else InvalidCredentials
  }

  /** The password plays no part in the decision. */
  lemma LoginIgnoresPassword(email: Value, p1: Value, p2: Value)
    ensures Login(email, p1) == Login(email, p2)
  {
  }

  /** The address is compared exactly: a different letter case is refused. */
  lemma LoginCaseSensitive()
    ensures Login(Str("Admin@preplens.com"), Str("secret")).InvalidCredentials?
  {
  }

  /** What the middleware does with a request. */
  datatype Gate = Proceed(token: string) | Unauthorized | InvalidToken

  /** `authHeader.split(' ')[1]`: the text after the first space, up to the next one. A header
      that starts with the prefix always has a second piece. */
  function BearerToken(header: string): (t: string)
    requires StartsWith(header, BearerPrefix)
    ensures ' ' !in t
  {
    assert header[6] == ' ';
    var pieces := Split(header, ' ');
    assert |pieces| >= 2;
    SplitPieces(header, ' ');
    pieces[1]
  }

  /** The middleware: a missing header, or one not starting with `Bearer `, is refused as
      unauthorized; otherwise the token must pass `verify`. */
  function Check(header: Option<string>, verify: string -> bool): (r: Gate)
    ensures r.Unauthorized? <==> header.None? || !StartsWith(header.value, BearerPrefix)
    ensures r.Proceed? ==> r.token == BearerToken(header.value)
    ensures r.Proceed? ==> verify(r.token) && ' ' !in r.token
    ensures !r.Unauthorized? ==> (r.InvalidToken? <==> !verify(BearerToken(header.value)))
  {
    if header.None? || header.value == "" || !StartsWith(header.value, BearerPrefix) then Unauthorized
    else
      var token := BearerToken(header.value);
      if verify(token) then Proceed(token) else InvalidToken
  }

  /** The token read from `Bearer <t>` or `Bearer <t> <more>` is exactly `t` when `t` has no
      space. */
  lemma BearerTokenRoundTrip(t: string, more: string)
    requires ' ' !in t
    ensures BearerToken(BearerPrefix + t) == t
    ensures BearerToken(BearerPrefix + t + " " + more) == t
  {
    assert BearerPrefix + t == "Bearer" + [' '] + t;
    SplitFirst("Bearer", ' ', t);
    assert BearerPrefix + t + " " + more == "Bearer" + [' '] + (t + [' '] + more);
    SplitFirst("Bearer", ' ', t + [' '] + more);
    SplitFirst(t, ' ', more);
  }

  /** A header with two spaces after `Bearer` yields the empty token. */
  lemma DoubleSpaceGivesEmptyToken(t: string)
    ensures BearerToken(BearerPrefix + " " + t) == ""
  {
    assert BearerPrefix + " " + t == "Bearer" + [' '] + ("" + [' '] + t);
    SplitFirst("Bearer", ' ', "" + [' '] + t);
    SplitFirst("", ' ', t);
  }

  /** A token the verifier accepts, sent as `Bearer <token>`, lets the request through. */
  lemma ValidTokenProceeds(t: string, verify: string -> bool)
    requires ' ' !in t && verify(t)
    ensures Check(Some(BearerPrefix + t), verify) == Proceed(t)
  {
    BearerTokenRoundTrip(t, "");
    assert StartsWith(BearerPrefix + t, BearerPrefix);
  }
}
