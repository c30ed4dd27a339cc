/** The authenticateToken middleware both servers put in front of every
    changing route (football-api/index.js, server.js). Token signing and
    verification belong to the JWT library and are passed in as a function. */
module Auth {
  import opened Common

  /** What a valid token carries. */
  datatype Claims = Claims(id: int, username: string, role: string)

  datatype Access = Denied(status: int) | Granted(user: Claims)

  /** The token of an `Authorization` header: the second space-separated
      word, when there is one and it is not empty. */
  function BearerToken(authHeader: Option<string>): (r: Option<string>)
    ensures r.Some? ==> r.value != ""
  {
    if authHeader.None? || authHeader.value == "" then None
    else
      var words := Split(authHeader.value, ' ');
      if |words| < 2 || words[1] == "" then None else Some(words[1])
  }

  /** authenticateToken: 401 without a token, 403 when the token does not
      verify, the token's claims otherwise. */
  function Authenticate(authHeader: Option<string>, verify: string -> Option<Claims>): (r: Access)
    ensures r.Denied? ==> r.status == 401 || r.status == 403
    ensures r.Denied? && r.status == 401 <==> BearerToken(authHeader).None?
    ensures r.Granted? <==> BearerToken(authHeader).Some? && verify(BearerToken(authHeader).value).Some?
  {
    match BearerToken(authHeader)
    case None => Denied(401)
    case Some(token) =>
      match verify(token)
      case None => Denied(403)
      case Some(claims) => Granted(claims)
  }

  /** A `Bearer <token>` header hands exactly that token to the verifier. */
  lemma BearerHeader(token: string)
    requires token != "" && ' ' !in token
    ensures BearerToken(Some("Bearer " + token)) == Some(token)
  {
    var words := ["Bearer", token];
    assert Join(words[1..], ' ') == token;
    assert "Bearer " + token == Join(words, ' ');
    SplitJoin(words, ' ');
  }

  /** A header with no space in it carries no token. */
  lemma NoSpaceNoToken(header: string)
    requires ' ' !in header
    ensures BearerToken(Some(header)) == None
  {
    if header != "" {
      assert Join([header], ' ') == header;
      SplitJoin([header], ' ');
    }
  }

  predicate IsAdmin(user: Claims)
  {
    user.role == "admin"
  }
}
