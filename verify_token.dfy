/**
 * The bearer-token middleware of Backend/src/middlewares/verifyToken.ts.
 *
 * The token is the second field of the `Authorization` header split on
 * spaces; the first field (the scheme word) is never looked at. The token is
 * checked with the access-token key; on success the decoded claims are put on
 * the request and the next handler runs, otherwise the response is 401.
 */
module VerifyToken {
  import opened Wrappers
  import opened Strings
  import opened Crypto

  /** What a middleware does with a request: hand it on, or answer it. */
  datatype Decision = Next | Deny(status: nat, message: string)

  const MsgTokenRequired: string := "Token requerido"
  const MsgTokenInvalid: string := "Token inválido o expirado"

  /** `req.headers["authorization"]?.split(" ")[1]`: `None` stands for `undefined`. */
  function BearerToken(header: Option<string>): (token: Option<string>)
    ensures token.Some? ==> header.Some? && forall i :: 0 <= i < |token.value| ==> token.value[i] != ' '
  {
    if header.None? then None
    else
      var parts := Split(header.value, ' ');
      if |parts| >= 2 then Some(parts[1]) else None
  }

  /** "<scheme> <token>" yields the token whatever the scheme word is. */
  lemma BearerTokenOfHeader(scheme: string, token: string)
    requires forall i :: 0 <= i < |scheme| ==> scheme[i] != ' '
    requires forall i :: 0 <= i < |token| ==> token[i] != ' '
    ensures BearerToken(Some(scheme + " " + token)) == Some(token)
  {
    SplitFirstField(scheme, token, ' ');
    SplitWithoutSeparator(token, ' ');
  }

  /** A header without a space, such as "Bearer" alone, yields no token. */
  lemma HeaderWithoutSpaceHasNoToken(header: string)
    requires forall i :: 0 <= i < |header| ==> header[i] != ' '
    ensures BearerToken(Some(header)) == None
  {
    SplitWithoutSeparator(header, ' ');
  }

  /** The request object the middleware decorates with the decoded claims. */
  class Request {
    var usuario: Option<Claims>

    constructor ()
      ensures usuario == None
    {
      usuario := None;
    }
  }

  /**
   * `verifyToken(req, res, next)`: `jwtVerify(token, key)` gives the claims, or
   * `None` where `jwt.verify` throws. Only a successful check touches the request.
   */
  method Verify(req: Request, header: Option<string>, jwtVerify: (string, string) -> Option<Claims>, env: Env)
    returns (d: Decision)
    modifies req
    ensures d == Decide(header, jwtVerify, env)
    ensures d == Next ==> req.usuario == jwtVerify(BearerToken(header).value, AccessKey(env))
    ensures d != Next ==> req.usuario == old(req.usuario)
  {
    var token := BearerToken(header);
    if token.None? || token.value == "" {
      return Deny(401, MsgTokenRequired);
    }
    var decoded := jwtVerify(token.value, AccessKey(env));
    if decoded.None? {
      return Deny(401, MsgTokenInvalid);
    }
    req.usuario := decoded;
    d := Next;
  }

  /** The decision alone, as a function of the header: every refusal is a 401. */
  function Decide(header: Option<string>, jwtVerify: (string, string) -> Option<Claims>, env: Env): (d: Decision)
    ensures d.Deny? ==> d.status == 401
    ensures d == Next <==> (BearerToken(header).Some? && BearerToken(header).value != ""
                            && jwtVerify(BearerToken(header).value, AccessKey(env)).Some?)
  {
    var t := BearerToken(header);
    if t.None? || t.value == "" then Deny(401, MsgTokenRequired)
    else if jwtVerify(t.value, AccessKey(env)).None? then Deny(401, MsgTokenInvalid)
    else Next
  }

  /** A request with no `Authorization` header is refused before any token check. */
  lemma MissingHeaderRefused(jwtVerify: (string, string) -> Option<Claims>, env: Env)
    ensures Decide(None, jwtVerify, env) == Deny(401, MsgTokenRequired)
  {
  }

  /** "Bearer <t>" with a token the key accepts is let through. */
  lemma ValidBearerAccepted(t: string, jwtVerify: (string, string) -> Option<Claims>, env: Env)
    requires t != "" && forall i :: 0 <= i < |t| ==> t[i] != ' '
    requires jwtVerify(t, AccessKey(env)).Some?
    ensures Decide(Some("Bearer " + t), jwtVerify, env) == Next
  {
    BearerTokenOfHeader("Bearer", t);
    assert "Bearer" + " " + t == "Bearer " + t;
  }
}
