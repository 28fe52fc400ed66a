// CheckHeaderService: a second token check, not wired into the services. It
// validates against Jwt:Secret with the default five-minute clock skew, takes
// the user id from the NameIdentifier claim and ignores revocation.
module CheckHeaderService {
  import opened Common
  import opened Domain
  import opened Jwt
  import opened TokenService

  /** The default ClockSkew of TokenValidationParameters, in seconds. */
  const DefaultClockSkew: int := 300

  /** AnyAsync(rt => rt.Token == token && rt.AppUserId == userId); a null user id matches no row. */
  predicate HasRow(rows: seq<RefreshToken>, token: string, userId: Option<string>)
  {
    userId.Some? && exists i :: 0 <= i < |rows| && rows[i].token == token && rows[i].appUserId == userId.value
  }

  /** CheckPassedUserToken. */
  function CheckPassedUserToken(cfg: JwtConfig, users: seq<User>, rows: seq<RefreshToken>,
                                now: int, header: string)
    : (r: Response<HeaderVerdict>)
    ensures IsBlank(header) ==> r == Fail(401, "Please Login and pass the token")
    ensures cfg.secret.None? && !IsBlank(header) ==> r.code == 500 && r.data.None?
    ensures r.data.Some? <==> r.code == 200
    ensures r.code in {200, 401, 404, 500}
    ensures r.code == 200 ==>
      var t := cfg.codec.read(RemoveAll(header, Bearer));
      t.Some? && t.value.signingKey == cfg.secret && now <= t.value.expires + DefaultClockSkew
      && (r.data.value.status <==> HasRow(rows, RemoveAll(header, Bearer), FindFirst(t.value.claims, NameIdentifier)))
      && (exists u :: u in users && u.id == r.data.value.userId
                      && FindFirst(t.value.claims, Email) == Some(u.email))
  {
    if IsBlank(header) then Fail(401, "Please Login and pass the token")
    else
      var token := RemoveAll(header, Bearer);
      match cfg.secret
      case None => Fail(500, "")
      case Some(secret) =>
        match Validate(cfg.codec, token, secret, true, DefaultClockSkew, now)
        case Malformed => Fail(500, "")
        case Rejected => Fail(500, "")
        case Accepted(claims) =>
          var userId := FindFirst(claims, NameIdentifier);
          match FindFirst(claims, Email)
          case None => Fail(500, "")
          case Some(email) =>
            match FindByEmail(users, email)
            case None => Fail(404, "User does not exist")
            case Some(u) =>
              Response(true, 200, "User Authorized", Some(HeaderVerdict(HasRow(rows, token, userId), u.id)))
  }

  /** Tokens issued by GenerateTokenAsync carry no NameIdentifier claim, so this check never
      confirms them, whatever the refresh-token table holds. */
  lemma NeverConfirmsIssuedTokens(cfg: JwtConfig, users: seq<User>, rows: seq<RefreshToken>,
                                  u: User, issuedAt: int, now: int, header: string)
    requires RoundTrips(cfg.codec, AccessToken(cfg, u, issuedAt))
    requires Carries(header, cfg.codec.write(AccessToken(cfg, u, issuedAt)))
    ensures var r := CheckPassedUserToken(cfg, users, rows, now, header);
            r.data.Some? ==> !r.data.value.status
  {
    CarriesStrips(header, cfg.codec.write(AccessToken(cfg, u, issuedAt)));
    AccessClaimsRead(u);
  }

  /** The two checks disagree on a revoked row: a token whose only row is revoked is confirmed
      here (when it names its owner in NameIdentifier and is signed with the secret), while the
      gate answers with a false status. */
  lemma RevokedRowStillConfirmed(cfg: JwtConfig, users: seq<User>, u: User, t: JwtToken,
                                 now: int, revokedAt: int)
    requires cfg.secret == Some(cfg.key)
    requires FindByEmail(users, u.email) == Some(u)
    requires t.signingKey == Some(cfg.key) && now <= t.expires
    requires t.claims == [Claim(Email, u.email), Claim(NameIdentifier, u.id)]
    requires RoundTrips(cfg.codec, t) && !Occurs(Bearer, cfg.codec.write(t))
    ensures var header := Bearer + cfg.codec.write(t);
            var rows := [RefreshToken(u.id, cfg.codec.write(t), t.expires, Some(revokedAt))];
            CheckPassedUserToken(cfg, users, rows, now, header).data == Some(HeaderVerdict(true, u.id))
            && DecodeGeneratedToken(cfg, users, rows, now, header).data == Some(HeaderVerdict(false, u.id))
  {
    var s := cfg.codec.write(t);
    var header := Bearer + s;
    var rows := [RefreshToken(u.id, s, t.expires, Some(revokedAt))];
    CarriesStrips(header, s);
    assert t.claims[1..][0] == Claim(NameIdentifier, u.id);
    assert FindFirst(t.claims, NameIdentifier) == Some(u.id);
    assert rows[0].token == s;
  }
}
