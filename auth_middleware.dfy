/** The route guard: a `Bearer` token in the Authorization header, verified and
    resolved to a stored user. Token verification (JWT) is `verify`, which yields the
    id the token was issued for, or `None` when it is invalid or expired. */
module AuthMiddleware {
  import opened Optional
  import opened Strings
  import opened AuthController

  datatype Outcome = Next(user: PublicUser) | Unauthorized(message: string)

  /** `header.split(' ')[1]`, which is `undefined` when there is no second piece. */
  function TokenOf(header: string): (t: Option<string>)
    ensures t.Some? ==> ' ' !in t.value
    ensures t.None? <==> ' ' !in header
    ensures t.Some? ==> |Split(header, ' ')| >= 2 && t.value == Split(header, ' ')[1]
  {
    var pieces := Split(header, ' ');
    SplitWithoutSpace(header);
    if |pieces| >= 2 then Some(pieces[1]) else None
  }

  /** A string with a space splits into at least two pieces; one without, into one. */
  lemma {:induction false} SplitWithoutSpace(s: string)
    ensures |Split(s, ' ')| == 1 <==> ' ' !in s
  {
    if s != [] {
      SplitWithoutSpace(s[1..]);
    }
  }

  /** `protect`: no header, or one not starting with "Bearer", has no token; a missing
      or rejected token, "token failed"; a token for an unknown id, "user not found";
      otherwise the request goes on with the user, without its password. */
  function Protect(authorization: Option<string>, verify: string -> Option<string>,
                   users: seq<UserRecord>): (o: Outcome)
    ensures o.Next? <==>
      authorization.Some? && StartsWith(authorization.value, "Bearer")
      && TokenOf(authorization.value).Some? && verify(TokenOf(authorization.value).value).Some?
      && FindById(users, verify(TokenOf(authorization.value).value).value).Some?
    ensures o.Next? ==> o.user.id == verify(TokenOf(authorization.value).value).value
    ensures o.Next? ==>
      o.user == WithoutPassword(FindById(users, verify(TokenOf(authorization.value).value).value).value)
    ensures o.Unauthorized? ==> o.message in {"Not authorized, no token", "Not authorized, token failed",
                                               "Not authorized, user not found"}
    ensures (authorization.None? || !StartsWith(authorization.value, "Bearer")) ==>
      o == Unauthorized("Not authorized, no token")
    ensures (authorization.Some? && StartsWith(authorization.value, "Bearer")
             && (TokenOf(authorization.value).None? || verify(TokenOf(authorization.value).value).None?)) ==>
      o == Unauthorized("Not authorized, token failed")
    ensures (authorization.Some? && StartsWith(authorization.value, "Bearer")
             && TokenOf(authorization.value).Some? && verify(TokenOf(authorization.value).value).Some?
             && FindById(users, verify(TokenOf(authorization.value).value).value).None?) ==>
      o == Unauthorized("Not authorized, user not found")
  {
    if authorization.None? || !StartsWith(authorization.value, "Bearer") then
      Unauthorized("Not authorized, no token")
    else
      var token := TokenOf(authorization.value);
      if token.None? then Unauthorized("Not authorized, token failed")
      else
        var id := verify(token.value);
        if id.None? then Unauthorized("Not authorized, token failed")
        else
          var user := FindById(users, id.value);
          if user.None? then Unauthorized("Not authorized, user not found")
          else Next(WithoutPassword(user.value))
  }

  /** The header a client sends: "Bearer " and the token. It yields that token. */
  lemma BearerHeaderToken(token: string)
    requires ' ' !in token
    ensures StartsWith("Bearer " + token, "Bearer")
    ensures TokenOf("Bearer " + token) == Some(token)
  {
    assert "Bearer " + token == "Bearer" + [' '] + token;
    SplitAfterPiece("Bearer", ' ', token);
    SplitWithoutSeparator(token, ' ');
    assert ("Bearer " + token)[..6] == "Bearer";
  }

  /** A token that login issued for a stored user, sent as a Bearer header, lets the
      request through as that user, provided the verifier accepts what the signer
      produced and the token has no space in it. */
  lemma LoginTokenPasses(users: seq<UserRecord>, k: nat, sign: (string, int) -> string,
                         verify: string -> Option<string>)
    requires k < |users|
    requires var token := sign(users[k].id, LoginTokenDays); ' ' !in token && verify(token) == Some(users[k].id)
    ensures var token := sign(users[k].id, LoginTokenDays);
      Protect(Some("Bearer " + token), verify, users).Next?
      && Protect(Some("Bearer " + token), verify, users).user.id == users[k].id
  {
    BearerHeaderToken(sign(users[k].id, LoginTokenDays));
    assert FindById(users, users[k].id).Some?;
  }
}
