// JSON Web Tokens as this backend issues and checks them. The token is kept
// abstract: its claims, its expiry and the key it was signed with. The
// serialisation done by JwtSecurityTokenHandler is a codec supplied by the
// caller.
module Jwt {
  import opened Common

  /** The claim types the backend writes or reads (ClaimTypes.*). */
  datatype ClaimKind = Name | Email | Role | NameIdentifier

  datatype Claim = Claim(kind: ClaimKind, value: string)

  /** A signed token: its claims, its expiry (seconds) and the HMAC key it was signed with,
      None when it carries no signature. */
  datatype JwtToken = JwtToken(claims: seq<Claim>, expires: int, signingKey: Option<string>)

  /** WriteToken and ReadToken; `read` yields None where ReadToken throws. */
  datatype Codec = Codec(write: JwtToken -> string, read: string -> Option<JwtToken>)

  /** The codec reads back what it wrote for this token. */
  predicate RoundTrips(codec: Codec, t: JwtToken)
  {
    codec.read(codec.write(t)) == Some(t)
  }

  /** The configuration the services read: Jwt:Key, the optional Jwt:Secret,
      Jwt:ExpirationTimeInMinutes, and the token handler. */
  datatype JwtConfig = JwtConfig(key: string, secret: Option<string>, expirationMinutes: int,
                                 codec: Codec)

  /** The lifetime of an issued token, in seconds. */
  function Lifetime(cfg: JwtConfig): int
  {
    60 * cfg.expirationMinutes
  }

  /** ClaimsPrincipal.FindFirst(kind)?.Value. */
  function FindFirst(claims: seq<Claim>, kind: ClaimKind): (r: Option<string>)
    ensures r.Some? ==> Claim(kind, r.value) in claims
    ensures r.None? <==> forall c :: c in claims ==> c.kind != kind
    ensures |claims| > 0 && claims[0].kind == kind ==> r == Some(claims[0].value)
  {
    if |claims| == 0 then None
    else if claims[0].kind == kind then Some(claims[0].value)
    else FindFirst(claims[1..], kind)
  }

  /** The values of the role claims, in order. */
  function RolesOf(claims: seq<Claim>): (r: seq<string>)
    ensures |r| <= |claims|
    ensures forall x :: x in r <==> Claim(Role, x) in claims
  {
    if |claims| == 0 then []
    else (if claims[0].kind == Role then [claims[0].value] else []) + RolesOf(claims[1..])
  }

  /** Outcome of ReadToken followed by ValidateToken. */
  datatype Validation = Malformed | Rejected | Accepted(claims: seq<Claim>)

  /** ValidateToken with ValidateIssuerSigningKey against `key` and, if `checkLifetime`, the
      lifetime check with the given clock skew: the token is still valid until expires + skew. */
  function Validate(codec: Codec, s: string, key: string, checkLifetime: bool, skew: int, now: int)
    : (v: Validation)
    ensures v.Accepted? <==>
      codec.read(s).Some? && codec.read(s).value.signingKey == Some(key)
      && (checkLifetime ==> now <= codec.read(s).value.expires + skew)
    ensures v.Malformed? <==> codec.read(s).None?
    ensures v.Accepted? ==> v.claims == codec.read(s).value.claims
  {
    match codec.read(s)
    case None => Malformed
    case Some(t) =>
      if t.signingKey == Some(key) && (checkLifetime ==> now <= t.expires + skew)
      then Accepted(t.claims) else Rejected
  }
}
