/** `authenticateMiddleware`: the `Authorization: Bearer <token>` header check
    and the classification of the token verification outcome. The JWT
    verification itself is an input. */
module AuthMiddleware {
  import opened Wrappers
  import opened JsStrings

  /** The `Bearer <token>` split shared by the authentication middleware and
      the GitHub route: split on single spaces, require exactly two pieces
      with the first equal to "bearer" in any letter case, and take the
      second as the token. */
  function ParseBearer(header: string): (token: Option<string>)
    ensures token.Some? <==>
      |Split(header, ' ')| == 2 && ToLower(Split(header, ' ')[0]) == "bearer"
    ensures token.Some? ==> token.value == Split(header, ' ')[1]
  {
    var parts := Split(header, ' ');
    if |parts| != 2 || ToLower(parts[0]) != "bearer" then None else Some(parts[1])
  }

  /** The characterisation of an accepted header: six letters spelling
      "bearer" in any case, one space, and a token with no space in it. */
  lemma ParseBearerShape(header: string)
    ensures ParseBearer(header).Some? <==>
      |header| >= 7 && ToLower(header[..6]) == "bearer" && header[6] == ' ' && ' ' !in header[7..]
    ensures ParseBearer(header).Some? ==> ParseBearer(header).value == header[7..]
  {
    var parts := Split(header, ' ');
    if ParseBearer(header).Some? {
      TwoPartsRebuild(header, ' ');
      assert |parts[0]| == 6;
      assert header[..6] == parts[0];
      assert header[7..] == parts[1];
    }
    if |header| >= 7 && ToLower(header[..6]) == "bearer" && header[6] == ' ' && ' ' !in header[7..] {
      var scheme := header[..6];
      assert header == scheme + [' '] + header[7..];
      SplitAtOneSeparator(scheme, ' ', header[7..]);
    }
  }

  /** `Bearer tok` is accepted with token `tok`, whatever the letter case
      of the scheme. */
  lemma BearerTokenAccepted(token: string)
    requires ' ' !in token
    ensures ParseBearer("Bearer " + token) == Some(token)
    ensures ParseBearer("BEARER " + token) == Some(token)
  {
    SplitAtOneSeparator("Bearer", ' ', token);
    assert "Bearer " + token == "Bearer" + [' '] + token;
    SplitAtOneSeparator("BEARER", ' ', token);
    assert "BEARER " + token == "BEARER" + [' '] + token;
    BearerSpellings();
  }

  /** Two spellings of the scheme that lower-case to "bearer". */
  lemma BearerSpellings()
    ensures ToLower("Bearer") == "bearer" && ToLower("BEARER") == "bearer"
  {
    var mixed, upper := ToLower("Bearer"), ToLower("BEARER");
    assert mixed[0] == 'b' && upper[0] == 'b' && upper[1] == 'e' && upper[2] == 'a';
    assert upper[3] == 'r' && upper[4] == 'e' && upper[5] == 'r';
  }

  /** A double space after the scheme yields three pieces and is rejected. */
  lemma DoubleSpaceRejected(scheme: string, token: string)
    requires ' ' !in scheme && ' ' !in token
    ensures ParseBearer(scheme + "  " + token).None?
  {
    assert scheme + "  " + token == scheme + [' ', ' '] + token;
    DoubleSeparatorGivesThreeParts(scheme, ' ', token);
  }

  /** The outcome of `jwt.verify`, an input of the model. */
  datatype VerifyOutcome = Decoded(claims: string) | TokenExpired | JsonWebTokenError | OtherError

  datatype Response =
    | Next(user: string)   // `req.user` is set and `next()` called
    | Unauthorized         // 401
    | Forbidden            // 403
    | InternalError        // 500

  /** The middleware for a request whose header is `header` (None when
      absent), with `verify` standing for the JWT verification. */
  function Authenticate(header: Option<string>, verify: string -> VerifyOutcome): (r: Response)
    ensures (header.None? || header.value == "") ==> r == Unauthorized
    ensures header.Some? && header.value != "" && ParseBearer(header.value).None? ==> r == Unauthorized
    ensures r.Next? <==>
      (&& header.Some? && header.value != "" && ParseBearer(header.value).Some?
       && verify(ParseBearer(header.value).value).Decoded?)
    ensures r.Next? ==> r.user == verify(ParseBearer(header.value).value).claims
    ensures r == Forbidden ==>
      (ParseBearer(header.value).Some? && verify(ParseBearer(header.value).value) == JsonWebTokenError)
    ensures r == InternalError ==>
      (ParseBearer(header.value).Some? && verify(ParseBearer(header.value).value) == OtherError)
    ensures header.Some? && header.value != "" && ParseBearer(header.value).Some? ==>
      var outcome := verify(ParseBearer(header.value).value);
      && (outcome == TokenExpired ==> r == Unauthorized)
      && (outcome == JsonWebTokenError ==> r == Forbidden)
      && (outcome == OtherError ==> r == InternalError)
  {
    if header.None? || header.value == "" then Unauthorized
    else
      match ParseBearer(header.value)
      case None => Unauthorized
      case Some(token) =>
        match verify(token)
        case Decoded(claims) => Next(claims)
        case TokenExpired => Unauthorized
        case JsonWebTokenError => Forbidden
        case OtherError => InternalError
  }

  /** An expired token is refused with 401, not 403. */
  lemma ExpiredIsUnauthorized(header: string, verify: string -> VerifyOutcome)
    requires ParseBearer(header).Some? && verify(ParseBearer(header).value) == TokenExpired
    ensures Authenticate(Some(header), verify) == Unauthorized
  {
    ParseBearerShape(header);
  }
}
