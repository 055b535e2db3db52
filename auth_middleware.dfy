/**
  The `auth` middleware: takes the token from the `accessToken` cookie or,
  failing that, from the second space-separated piece of the authorization
  header, answers 401 when there is none and otherwise calls `next()`. The
  token is only checked for presence: it is neither verified nor decoded.
*/
module AuthMiddleware {
  import opened Wrappers
  import opened JsStrings
  import opened Http

  /** The two inputs the middleware reads: the `accessToken` cookie and the authorization header. */
  datatype Request = Request(accessTokenCookie: Option<string>, authorization: Option<string>)

  /** `next()` is called, or a response is sent and the chain stops. */
  datatype Outcome = Next | Respond(response: Response)

  const MissingToken: Response := Response(401, Failure("Authorization token is missing"))

  /** The header holds a space and the character right after the first space is not a space. */
  predicate TokenAfterFirstSpace(h: string) {
    var i := FirstSpace(h);
    i + 1 < |h| && h[i + 1] != ' '
  }

  /**
    `split(' ')` has a second piece exactly when the header holds a space, and
    that piece runs from just after the first space up to the next space.
  */
  lemma SecondPiece(h: string)
    ensures |Split(h)| > 1 <==> FirstSpace(h) < |h|
    ensures FirstSpace(h) < |h| ==>
              var rest := h[FirstSpace(h) + 1..];
              Split(h)[1] == rest[..FirstSpace(rest)]
  {
    var i := FirstSpace(h);
    var pieces := Split(h);
    if i < |h| {
      SplitCons(h);
      var rest := h[i + 1..];
      SplitHead(rest);
      assert pieces == [h[..i]] + Split(rest);
      assert pieces[1] == Split(rest)[0];
    } else {
      SplitWhole(h);
    }
  }

  /**
    The `token` expression: `req.cookies.accessToken || (authorization &&
    authorization.split(' ')[1])`. A truthy cookie wins whatever the header
    says; otherwise a truthy token is the space-free piece that starts right
    after the first space of the header and runs up to the next space or the
    end of the header.
  */
  function SelectToken(req: Request): (token: Option<string>)
    ensures Truthy(req.accessTokenCookie) ==> token == req.accessTokenCookie
    ensures !Truthy(req.accessTokenCookie) && Truthy(token) ==>
              && req.authorization.Some?
              && var h := req.authorization.value;
                 var i := FirstSpace(h);
                 && i < |h| && NoSpace(token.value)
                 && i + 1 + |token.value| <= |h|
                 && h[i + 1..][..|token.value|] == token.value
                 && (i + 1 + |token.value| == |h| || h[i + 1 + |token.value|] == ' ')
  {
    if Truthy(req.accessTokenCookie) then req.accessTokenCookie
    else if !Truthy(req.authorization) then req.authorization
    else
      var pieces := Split(req.authorization.value);
      SecondPiece(req.authorization.value);
      SplitNoSpace(req.authorization.value);
      if |pieces| > 1 then Some(pieces[1]) else None
  }

  /**
    The middleware: `next()` exactly when the cookie is non-empty or the
    header has a non-space character right after its first space; otherwise
    401 with `error: true, success: false`.
  */
  function Auth(req: Request): (r: Outcome)
    ensures r.Next?
        <==> Truthy(req.accessTokenCookie) || (req.authorization.Some? && TokenAfterFirstSpace(req.authorization.value))
    ensures r.Respond? ==> r.response == MissingToken
  {
    TokenPresence(req);
    var token := SelectToken(req);
    if !Truthy(token) then Respond(MissingToken) else Next
  }

  /** When `SelectToken` finds a non-empty token, in terms of the request's characters. */
  lemma TokenPresence(req: Request)
    ensures Truthy(SelectToken(req))
        <==> Truthy(req.accessTokenCookie) || (req.authorization.Some? && TokenAfterFirstSpace(req.authorization.value))
  {
    if req.authorization.Some? {
      SecondPiece(req.authorization.value);
    }
  }

  /** A non-empty cookie is used as the token, whatever the header holds. */
  lemma CookieWins(cookie: string, header: Option<string>)
    requires cookie != ""
    ensures SelectToken(Request(Some(cookie), header)) == Some(cookie)
    ensures Auth(Request(Some(cookie), header)) == Next
  {
  }

  /** An empty cookie is falsy for `||`, so the header decides, exactly as if there were no cookie. */
  lemma EmptyCookieFallsThrough(header: Option<string>)
    ensures SelectToken(Request(Some(""), header)) == SelectToken(Request(None, header))
    ensures Auth(Request(Some(""), header)) == Auth(Request(None, header))
  {
  }

  /** A `"<scheme> <token>"` header, such as `"Bearer abc"`, yields the token and lets the request through. */
  lemma {:induction false} SchemeAndToken(scheme: string, token: string)
    requires NoSpace(scheme) && NoSpace(token) && token != ""
    ensures SelectToken(Request(None, Some(scheme + " " + token))) == Some(token)
    ensures Auth(Request(None, Some(scheme + " " + token))) == Next
  {
    var h := scheme + " " + token;
    assert Join([scheme, token]) == h;
    SplitJoin([scheme, token]);
  }

  /**
    Without a truthy cookie, a header holding a space yields exactly element 1
    of `split(' ')`: the text from just after the first space up to the next.
  */
  lemma HeaderToken(req: Request)
    requires !Truthy(req.accessTokenCookie) && req.authorization.Some?
    requires FirstSpace(req.authorization.value) < |req.authorization.value|
    ensures var h := req.authorization.value;
            var rest := h[FirstSpace(h) + 1..];
            SelectToken(req) == Some(rest[..FirstSpace(rest)])
  {
    SecondPiece(req.authorization.value);
  }

  /** Pieces after the second are ignored: `"<scheme> <token> <more>"` yields the token. */
  lemma {:induction false} ExtraPiecesIgnored(scheme: string, token: string, more: string)
    requires NoSpace(scheme) && NoSpace(token) && NoSpace(more) && token != ""
    ensures SelectToken(Request(None, Some(scheme + " " + token + " " + more))) == Some(token)
  {
    var h := scheme + " " + token + " " + more;
    assert [scheme, token, more] == [scheme] + [token, more];
    assert [token, more] == [token] + [more];
    JoinStep(token, [more]);
    JoinStep(scheme, [token, more]);
    assert Join([scheme, token, more]) == h;
    SplitJoin([scheme, token, more]);
  }

  /** A header with no space has no second piece: without a cookie the answer is 401. */
  lemma NoSpaceRejected(h: string)
    requires NoSpace(h)
    ensures SelectToken(Request(None, Some(h))) == None || h == ""
    ensures Auth(Request(None, Some(h))) == Respond(MissingToken)
  {
    assert FirstSpace(h) == |h|;
  }

  /** A header ending in a bare space, such as `"Bearer "`, yields the empty token: 401. */
  lemma {:induction false} TrailingSpaceRejected(scheme: string)
    requires NoSpace(scheme)
    ensures SelectToken(Request(None, Some(scheme + " "))) == Some("")
    ensures Auth(Request(None, Some(scheme + " "))) == Respond(MissingToken)
  {
    var h := scheme + " ";
    assert Join([scheme, ""]) == h;
    SplitJoin([scheme, ""]);
  }

  /**
    Nothing about the token is checked beyond its presence: any two requests
    that both carry a token are let through alike.
  */
  lemma TokenNotVerified(a: Request, b: Request)
    requires Truthy(SelectToken(a)) && Truthy(SelectToken(b))
    ensures Auth(a) == Auth(b) == Next
  {
  }

  /**
    The middleware as written reads `req.header.authorization`. In Express
    `req.header` is a method, which has no `authorization` property, so the
    header part of the expression is always `undefined` and only the cookie
    can supply a token.
  */
  function AuthAsWritten(req: Request): (r: Outcome)
    ensures r.Next? <==> Truthy(req.accessTokenCookie)
    ensures r.Respond? ==> r.response == MissingToken
  {
    var headerProperty: Option<string> := None;
    var token := if Truthy(req.accessTokenCookie) then req.accessTokenCookie else headerProperty;
    if !Truthy(token) then Respond(MissingToken) else Next
  }

  /** As written, a request carrying only `"<scheme> <token>"` in its header is refused, while `Auth` lets it through. */
  lemma HeaderIgnoredAsWritten(scheme: string, token: string)
    requires NoSpace(scheme) && NoSpace(token) && token != ""
    ensures AuthAsWritten(Request(None, Some(scheme + " " + token))) == Respond(MissingToken)
    ensures Auth(Request(None, Some(scheme + " " + token))) == Next
  {
    SchemeAndToken(scheme, token);
  }
}
