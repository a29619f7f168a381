/** The bearer-token gate (internal/middleware/auth.go). Token parsing and
    HMAC signature checking belong to the JWT library and are an oracle;
    what the middleware itself decides is a pure function of the header, the
    oracle's verdict, the claims and the current time. */
module Auth {
  import opened Common
  import Text

  /** A decoded JSON claim value. Numbers arrive as float64 in the source
      and are modelled as integers. */
  datatype ClaimValue = Null | Str(s: string) | Num(n: int) | Bool(b: bool) | Composite

  type Claims = map<string, ClaimValue>

  /** The family of the signing method named in the token header. */
  datatype SigningFamily = Hmac | Rsa | Ecdsa | EdDsa | Unsigned

  datatype ParsedToken = ParsedToken(family: SigningFamily, claims: Claims)

  /** The JWT library: given the token text and the key, the parsed token if
      it is well formed and its signature verifies under that key (None for
      any parse, signature or library validation failure). */
  type Verifier = (string, string) -> Option<ParsedToken>

  /** Either the request is aborted with 401 and a message, or the next
      handler runs with `userId` bound to the claim value. */
  datatype Decision = Reject(message: string) | Accept(userId: ClaimValue)

  const BearerPrefix := "Bearer "
  const MissingHeader := "Missing Authorization header"
  const MalformedToken := "Malformed token"
  const InvalidToken := "Invalid token"
  const InvalidClaims := "Invalid claims"
  const TokenExpired := "Token expired"

  /** `claims["sub"] == nil`: absent or JSON null. */
  predicate NoSubject(claims: Claims)
  {
    "sub" !in claims || claims["sub"] == Null
  }

  /** `exp` is present as a number and the clock is strictly past it. */
  predicate Expired(claims: Claims, now: int)
  {
    "exp" in claims && claims["exp"].Num? && now > claims["exp"].n
  }

  /** The claim checks run once the signature has been accepted. */
  function CheckClaims(claims: Claims, now: int): (d: Decision)
    ensures d.Accept? <==> !NoSubject(claims) && !Expired(claims, now)
    ensures d.Accept? ==> d.userId == claims["sub"]
    ensures NoSubject(claims) ==> d == Reject(InvalidClaims)
    ensures !NoSubject(claims) && Expired(claims, now) ==> d == Reject(TokenExpired)
  {
    if NoSubject(claims) then Reject(InvalidClaims)
    else if Expired(claims, now) then Reject(TokenExpired)
    else Accept(claims["sub"])
  }

  /** What the middleware decides for one request. */
  function Authorize(header: string, secret: string, verify: Verifier, now: int): (d: Decision)
    ensures header == "" <==> d == Reject(MissingHeader)
    ensures header != "" && !(BearerPrefix <= header) <==> d == Reject(MalformedToken)
    ensures d == Reject(InvalidToken) <==>
              header != "" && BearerPrefix <= header &&
              (verify(header[|BearerPrefix|..], secret).None? ||
               verify(header[|BearerPrefix|..], secret).value.family != Hmac)
    ensures d.Accept? <==>
              BearerPrefix <= header &&
              verify(header[|BearerPrefix|..], secret).Some? &&
              verify(header[|BearerPrefix|..], secret).value.family == Hmac &&
              CheckClaims(verify(header[|BearerPrefix|..], secret).value.claims, now).Accept?
    ensures d.Accept? ==> d.userId == verify(header[|BearerPrefix|..], secret).value.claims["sub"]
    ensures d.Accept? ==> d.userId != Null
    // Past the signature check, the claim checks alone decide.
    ensures BearerPrefix <= header && verify(header[|BearerPrefix|..], secret).Some? &&
            verify(header[|BearerPrefix|..], secret).value.family == Hmac ==>
              d == CheckClaims(verify(header[|BearerPrefix|..], secret).value.claims, now)
  {
    if header == "" then Reject(MissingHeader)
    else
      var token := Text.TrimPrefix(header, BearerPrefix);
      if token == header then Reject(MalformedToken)
      else match verify(token, secret)
        case None => Reject(InvalidToken)
        case Some(parsed) =>
          if parsed.family != Hmac then Reject(InvalidToken)
          else CheckClaims(parsed.claims, now)
  }

  /** A token expiring exactly now is still accepted; one second later it is
      not. */
  lemma ExpiryBoundary(claims: Claims, subject: string, exp: int)
    requires claims == map["sub" := Str(subject), "exp" := Num(exp)]
    ensures CheckClaims(claims, exp) == Accept(Str(subject))
    ensures CheckClaims(claims, exp + 1) == Reject(TokenExpired)
  {
  }

  /** Only `sub` names the caller: whatever `user_id` holds, including when
      it is the only identity claim present, the decision is the same. */
  lemma UserIdClaimIgnored(claims: Claims, v: ClaimValue, now: int)
    ensures CheckClaims(claims["user_id" := v], now) == CheckClaims(claims, now)
  {
    assert "user_id" != "sub" && "user_id" != "exp";
  }

  /** The claims the token minter in internal/utils/jwt.go writes: the
      caller under `user_id`, the email, and the expiry. */
  function MintedClaims(userId: string, email: string, exp: int): Claims
  {
    map["user_id" := Str(userId), "email" := Str(email), "exp" := Num(exp)]
  }

  /** Such a token never passes the gate, whatever the clock says: it has
      no `sub`. */
  lemma MintedTokensRejected(userId: string, email: string, exp: int, now: int)
    ensures CheckClaims(MintedClaims(userId, email, exp), now) == Reject(InvalidClaims)
  {
    assert "sub" !in MintedClaims(userId, email, exp);
  }
}
