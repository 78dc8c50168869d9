/** `authMiddleware`: the bearer token is the second space-separated piece of
    the `Authorization` header; a missing token gives 401, a token that fails
    verification gives 400, and a verified token lets the route run with the
    decoded claims. Signature and expiry checking is a parameter (`verify`),
    standing for `jwt.verify` with the server's secret. */
module Auth {
  import opened Js
  import opened Http

  /** The claims a token carries: the user's id and email. */
  datatype Claims = Claims(id: int, email: string)

  /** The second piece of the Authorization header split at spaces; `None`
      when the header is missing or holds no space. */
  function BearerToken(header: Option<string>): (r: Option<string>)
    ensures r.Some? <==> header.Some? && ' ' in header.value
    ensures r.Some? ==> ' ' !in r.value
  {
    if header.None? then None
    else
      var pieces := Split(header.value, ' ');
      if |pieces| >= 2 then Some(pieces[1]) else None
  }

  /** `header` is `scheme`, one space, `token`, and then nothing or a space. */
  ghost predicate TokenAt(header: string, scheme: string, token: string, rest: string) {
    ' ' !in scheme && header == scheme + " " + token + rest && (rest == [] || rest[0] == ' ')
  }

  /** The token is exactly the run of non-space characters after the first
      space of the header, whatever comes after the next space. */
  lemma BearerTokenOf(scheme: string, token: string, rest: string)
    requires ' ' !in token
    requires TokenAt(scheme + " " + token + rest, scheme, token, rest)
    ensures BearerToken(Some(scheme + " " + token + rest)) == Some(token)
  {
    var h := scheme + " " + token + rest;
    assert h == scheme + [' '] + (token + rest);
    SplitAtFirst(scheme, ' ', token + rest);
    SplitHeadOf(token, ' ', rest);
  }

  /** After a space-free scheme and a space, the first piece of the remainder
      is followed by nothing or by a space. */
  lemma TokenAfterScheme(header: string, scheme: string, after: string)
    requires ' ' !in scheme && header == scheme + [' '] + after
    ensures var t := Split(after, ' ')[0];
            TokenAt(header, scheme, t, after[|t|..])
  {
    var t := Split(after, ' ')[0];
    SplitHead(after, ' ');
    var rest := after[|t|..];
    assert after == t + rest;
    assert header == scheme + " " + t + rest;
  }

  /** Conversely, a token found in a header sits between its first and second
      spaces and holds no space. */
  lemma BearerTokenShape(header: string)
    requires BearerToken(Some(header)).Some?
    ensures var t := BearerToken(Some(header)).value;
            ' ' !in t && exists scheme: string, rest: string :: TokenAt(header, scheme, t, rest)
  {
    var k := IndexOf(header, ' ').value;
    var scheme := header[..k];
    var after := header[k + 1..];
    assert header == scheme + [' '] + after;
    SplitAtFirst(scheme, ' ', after);
    var t := Split(after, ' ')[0];
    assert t == BearerToken(Some(header)).value;
    TokenAfterScheme(header, scheme, after);
    assert TokenAt(header, scheme, t, after[|t|..]);
  }

  /** The middleware's verdict: stop with an error, or run the route for these claims. */
  function Authenticate(header: Option<string>, verify: string -> Option<Claims>): (r: Response<Claims>)
    ensures r.Status() == 401 <==> !Truthy(BearerToken(header))
    ensures r.Status() == 400 <==> Truthy(BearerToken(header)) && verify(BearerToken(header).value).None?
    ensures r.Ok? <==> Truthy(BearerToken(header)) && verify(BearerToken(header).value).Some?
    ensures r.Ok? ==> Some(r.body) == verify(BearerToken(header).value)
  {
    var token := BearerToken(header);
    if !Truthy(token) then Failure(401, "Acceso denegado. Falta el token.")
    else
      match verify(token.value)
      case None => Failure(400, "Token inválido o expirado.")
      case Some(claims) => Ok(claims)
  }

  /** A route behind the middleware: the handler runs only for verified claims. */
  function Protected<B>(header: Option<string>, verify: string -> Option<Claims>, handler: Claims -> Response<B>)
    : (r: Response<B>)
    ensures !Truthy(BearerToken(header)) ==> r == Failure(401, "Acceso denegado. Falta el token.")
    ensures Truthy(BearerToken(header)) && verify(BearerToken(header).value).None? ==> r.Status() == 400
    ensures Truthy(BearerToken(header)) && verify(BearerToken(header).value).Some? ==>
              r == handler(verify(BearerToken(header).value).value)
  {
    match Authenticate(header, verify)
    case Failure(status, error) => Failure(status, error)
    case Ok(claims) => handler(claims)
  }
}
