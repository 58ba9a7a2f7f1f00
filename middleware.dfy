/** The backend's authentication middleware: it reads the `Authorization`
    header, takes the token after the scheme, checks it, and records the
    caller's id in the request headers under `user-id` for the handler. */
module Middleware {
  import opened Wrappers
  import Strings
  import Jwt

  /** Header names as the HTTP server presents them (lower case). */
  const AuthorizationHeader: string := "authorization"
  const UserIdHeader: string := "user-id"

  /** The two ways a request is turned away with status 401. */
  datatype AuthError =
    | TokenMissing   // no Authorization header, or an empty one
    | TokenInvalid   // no second piece in the header, or the token does not verify

  /** The second space-separated piece of the header, if there is one. */
  function BearerToken(header: string): (token: Option<string>)
    ensures token.Some? ==> ' ' !in token.value
  {
    var pieces := Strings.Split(header, ' ');
    if |pieces| >= 2 then Some(pieces[1]) else None
  }

  /** The middleware: the request headers the handler sees, with `user-id`
      set to the verified caller, or the reason the request is refused. */
  function Authenticate(headers: map<string, string>): (r: Result<map<string, string>, AuthError>)
    ensures r == Failure(TokenMissing) <==>
              AuthorizationHeader !in headers || headers[AuthorizationHeader] == ""
    ensures r.Success? <==>
              && AuthorizationHeader in headers
              && BearerToken(headers[AuthorizationHeader]).Some?
              && Jwt.Verify(BearerToken(headers[AuthorizationHeader]).value).Some?
    ensures r.Success? ==>
              && UserIdHeader in r.value
              && r.value == headers[UserIdHeader := r.value[UserIdHeader]]
              && BearerToken(headers[AuthorizationHeader]).Some?
              && Jwt.Verify(BearerToken(headers[AuthorizationHeader]).value) == Some(r.value[UserIdHeader])
  {
    if AuthorizationHeader !in headers || headers[AuthorizationHeader] == "" then
      Failure(TokenMissing)
    else
      match BearerToken(headers[AuthorizationHeader])
      case None => Failure(TokenInvalid)
      case Some(token) =>
        match Jwt.Verify(token)
        case None => Failure(TokenInvalid)
        case Some(id) => Success(headers[UserIdHeader := id])
  }

  /** The caller id a protected handler reads from `user-id` once the
      middleware has let the request through. */
  function CallerOf(headers: map<string, string>): (r: Result<string, AuthError>)
    ensures r.Failure? <==> Authenticate(headers).Failure?
    ensures r.Failure? ==> r.error == Authenticate(headers).error
    ensures r.Success? ==> Jwt.Verify(BearerToken(headers[AuthorizationHeader]).value) == Some(r.value)
  {
    match Authenticate(headers)
    case Failure(e) => Failure(e)
    case Success(request) => Success(request[UserIdHeader])
  }

  /** The header yields a token exactly when it contains a space. */
  lemma BearerTokenPresent(header: string)
    ensures BearerToken(header).Some? <==> ' ' in header
  {
    Strings.SplitHasSecondPiece(header, ' ');
  }

  /** `<scheme> <token>` yields the token when neither part contains a space. */
  lemma BearerTokenOf(scheme: string, token: string)
    requires ' ' !in scheme && ' ' !in token
    ensures BearerToken(scheme + " " + token) == Some(token)
  {
    Strings.SplitAfterPiece(scheme, token, ' ');
    Strings.SplitWithoutSeparator(token, ' ');
  }

  /** A request carrying `Bearer <token issued for id>` is let through as `id`,
      whatever other headers it carries, including a forged `user-id`. */
  lemma IssuedTokenAuthenticates(headers: map<string, string>, id: string, name: string)
    requires AuthorizationHeader in headers
    requires headers[AuthorizationHeader] == "Bearer " + Jwt.Sign(id, name)
    ensures Authenticate(headers) == Success(headers[UserIdHeader := id])
    ensures CallerOf(headers) == Success(id)
  {
    var token := Jwt.Sign(id, name);
    assert "Bearer " + token == "Bearer" + " " + token;
    BearerTokenOf("Bearer", token);
    Jwt.VerifySign(id, name);
  }

  /** A header with nothing after the scheme is refused as invalid. */
  lemma SchemeOnlyIsInvalid(headers: map<string, string>, scheme: string)
    requires AuthorizationHeader in headers
    requires headers[AuthorizationHeader] == scheme
    requires scheme != "" && ' ' !in scheme
    ensures Authenticate(headers) == Failure(TokenInvalid)
  {
    BearerTokenPresent(scheme);
  }
}
