// TokenService: issuing access tokens, recording them as refresh-token rows,
// and the two decoders. DecodeGeneratedToken is the gate every protected
// operation consults first.
module TokenService {
  import opened Common
  import opened Domain
  import opened Jwt

  /** HeaderReturnDto: whether the presented token is an unrevoked row of the user, and the user. */
  datatype HeaderVerdict = HeaderVerdict(status: bool, userId: string)

  /** One role claim per role, in order. */
  function RoleClaims(roles: seq<string>): seq<Claim>
  {
    seq(|roles|, i requires 0 <= i < |roles| => Claim(Role, roles[i]))
  }

  /** The claims of an access token: the user name, the e-mail, then the roles. */
  function AccessClaims(u: User): seq<Claim>
  {
    [Claim(Name, u.userName), Claim(Email, u.email)] + RoleClaims(u.roles)
  }

  /** The token GenerateTokenAsync writes for u at time now, signed with Jwt:Key. */
  function AccessToken(cfg: JwtConfig, u: User, now: int): JwtToken
  {
    JwtToken(AccessClaims(u), now + Lifetime(cfg), Some(cfg.key))
  }

  lemma {:induction false} RolesOfAppend(a: seq<Claim>, b: seq<Claim>)
    ensures RolesOf(a + b) == RolesOf(a) + RolesOf(b)
    decreases |a|
  {
    if |a| > 0 {
      assert (a + b)[0] == a[0];
      assert (a + b)[1..] == a[1..] + b;
      RolesOfAppend(a[1..], b);
      var h := if a[0].kind == Role then [a[0].value] else [];
      assert RolesOf(a + b) == h + (RolesOf(a[1..]) + RolesOf(b));
      assert h + (RolesOf(a[1..]) + RolesOf(b)) == (h + RolesOf(a[1..])) + RolesOf(b);
    } else {
      assert a + b == b;
    }
  }

  lemma {:induction false} RolesOfRoleClaims(roles: seq<string>)
    ensures RolesOf(RoleClaims(roles)) == roles
    decreases |roles|
  {
    if |roles| > 0 {
      assert RoleClaims(roles)[1..] == RoleClaims(roles[1..]);
      RolesOfRoleClaims(roles[1..]);
    }
  }

  /** What a reader of an access token finds: the user's name and e-mail, exactly the user's
      roles, and no NameIdentifier claim. */
  lemma AccessClaimsRead(u: User)
    ensures FindFirst(AccessClaims(u), Name) == Some(u.userName)
    ensures FindFirst(AccessClaims(u), Email) == Some(u.email)
    ensures FindFirst(AccessClaims(u), NameIdentifier) == None
    ensures RolesOf(AccessClaims(u)) == u.roles
  {
    var c := AccessClaims(u);
    assert c[1..][0] == Claim(Email, u.email);
    RolesOfAppend([Claim(Name, u.userName), Claim(Email, u.email)], RoleClaims(u.roles));
    RolesOfRoleClaims(u.roles);
    assert RolesOf([Claim(Name, u.userName), Claim(Email, u.email)]) == [];
    forall x | x in c
      ensures x.kind != NameIdentifier
    {
    }
  }

  /** GenerateTokenAsync: None where it throws (unknown user name or wrong password); otherwise
      the serialised access token of the user the name lookup finds. */
  method GenerateTokenAsync(db: DataContext, cfg: JwtConfig, now: int, username: string,
                            password: string)
    returns (r: Option<string>)
    ensures r.None? <==> FindByName(db.users, username).None?
                         || !PasswordMatches(FindByName(db.users, username).value, password)
    ensures r.Some? ==> r.value == cfg.codec.write(AccessToken(cfg, FindByName(db.users, username).value, now))
  {
    var user := FindByName(db.users, username);
    if user.None? || !PasswordMatches(user.value, password) {
      return None;
    }
    var u := user.value;
    var claims := [Claim(Name, u.userName), Claim(Email, u.email)];
    var i := 0;
    while i < |u.roles|
      invariant 0 <= i <= |u.roles|
      invariant claims == [Claim(Name, u.userName), Claim(Email, u.email)] + RoleClaims(u.roles[..i])
    {
      assert RoleClaims(u.roles[..i + 1]) == RoleClaims(u.roles[..i]) + [Claim(Role, u.roles[i])];
      claims := claims + [Claim(Role, u.roles[i])];
      i := i + 1;
    }
    assert u.roles[..i] == u.roles;
    r := Some(cfg.codec.write(JwtToken(claims, now + Lifetime(cfg), Some(cfg.key))));
  }

  // ---------------------------------------------------------------------------
  // Refresh-token rows

  /** A row as SetRefreshToken's loop leaves it: an unrevoked row of the user is revoked now. */
  function RevokeRow(row: RefreshToken, userId: string, now: int): RefreshToken
  {
    if row.appUserId == userId && row.Active() then row.(revoked := Some(now)) else row
  }

  /** The revocation pass of SetRefreshToken over the whole table. */
  function RevokeActive(rows: seq<RefreshToken>, userId: string, now: int): (r: seq<RefreshToken>)
    ensures |r| == |rows|
    ensures forall i :: 0 <= i < |r| ==>
      (r[i].appUserId == rows[i].appUserId && r[i].token == rows[i].token && r[i].expires == rows[i].expires)
    ensures forall i :: 0 <= i < |r| && (rows[i].appUserId != userId || !rows[i].Active())
                        ==> r[i] == rows[i]
    ensures forall i :: 0 <= i < |r| && rows[i].appUserId == userId && rows[i].Active()
                        ==> r[i].revoked == Some(now)
    ensures forall i :: 0 <= i < |r| && r[i].appUserId == userId ==> !r[i].Active()
  {
    seq(|rows|, i requires 0 <= i < |rows| => RevokeRow(rows[i], userId, now))
  }

  /** The row SetRefreshToken appends. */
  function NewRow(cfg: JwtConfig, userId: string, token: string, now: int): RefreshToken
  {
    RefreshToken(userId, token, now + Lifetime(cfg), None)
  }

  /** The table after SetRefreshToken: every earlier row of the user revoked, the new row last. */
  function Rotate(rows: seq<RefreshToken>, cfg: JwtConfig, userId: string, token: string, now: int)
    : (r: seq<RefreshToken>)
    ensures |r| == |rows| + 1 && r[|rows|] == NewRow(cfg, userId, token, now)
    ensures forall i :: 0 <= i < |r| && r[i].appUserId == userId && r[i].Active() ==> i == |rows|
    ensures OneActivePerUser(rows) ==> OneActivePerUser(r)
  {
    RevokeActive(rows, userId, now) + [NewRow(cfg, userId, token, now)]
  }

  /** The loop of SetRefreshToken over the user's tokens: each unrevoked row gets Revoked = now. */
  method RevokeRows(table: seq<RefreshToken>, uid: string, now: int) returns (rows: seq<RefreshToken>)
    ensures rows == RevokeActive(table, uid, now)
  {
    rows := table;
    var i := 0;
    while i < |rows|
      invariant 0 <= i <= |rows| == |table|
      invariant forall k :: 0 <= k < i ==> rows[k] == RevokeRow(table[k], uid, now)
      invariant forall k :: i <= k < |rows| ==> rows[k] == table[k]
    {
      var row := rows[i];
      if row.appUserId == uid && row.revoked.None? {
        rows := rows[i := row.(revoked := Some(now))];
      }
      i := i + 1;
    }
  }

  /** UpdateAsync on the stored row with this id and no other pending change to it: None when no
      row has the id (a concurrency failure) or the validator refuses the row; otherwise the user
      table with that row's lookup name recomputed. */
  function UpdateStoredUser(users: seq<User>, id: string): Option<seq<User>>
  {
    match UserIndex(users, id)
    case None => None
    case Some(i) => SaveUser(users, i, users[i])
  }

  /** SetRefreshToken. With no user the dereference of user.Id throws and the catch answers 500.
      Otherwise the unrevoked rows of the user are revoked and the new row is added to the user's
      collection, all in the change tracker; UpdateAsync then saves them together with the user
      row, its lookup name recomputed, when the validator accepts the user, and saves nothing
      when it refuses. The answer is 200 either way. */
  method SetRefreshToken(db: DataContext, cfg: JwtConfig, now: int, user: Option<User>, token: string)
    returns (r: Response<RefreshToken>)
    requires db.Valid()
    modifies db
    ensures db.Valid()
    ensures db.tasks == old(db.tasks) && db.categories == old(db.categories) && db.comments == old(db.comments)
    ensures user.None? ==> r == Fail(500, "Failed to save token : ")
                           && db.users == old(db.users) && db.refreshTokens == old(db.refreshTokens)
    ensures user.Some? ==>
      r == Response(true, 200, "Token Saved Successfully", Some(NewRow(cfg, user.value.id, token, now)))
    ensures user.Some? ==>
      match UpdateStoredUser(old(db.users), user.value.id)
      case None => db.users == old(db.users) && db.refreshTokens == old(db.refreshTokens)
      case Some(saved) =>
        db.users == saved && db.refreshTokens == Rotate(old(db.refreshTokens), cfg, user.value.id, token, now)
  {
    if user.None? {
      return Fail(500, "Failed to save token : ");
    }
    var uid := user.value.id;
    var rows := RevokeRows(db.refreshTokens, uid, now);
    var row := NewRow(cfg, uid, token, now);
    r := Response(true, 200, "Token Saved Successfully", Some(row));
    var saved := UpdateStoredUser(db.users, uid);
    if saved.Some? {
      var k := UserIndex(db.users, uid).value;
      SaveKeepsKeys(db.users, k, db.users[k]);
      assert rows + [row] == Rotate(db.refreshTokens, cfg, uid, token, now);
      db.users := saved.value;
      db.refreshTokens := rows + [row];
    }
  }

  /** AnyAsync over the refresh-token table as DecodeGeneratedToken filters it. */
  predicate HasActiveRow(rows: seq<RefreshToken>, token: string, userId: string)
  {
    exists i :: 0 <= i < |rows| && rows[i].token == token && rows[i].appUserId == userId
                && rows[i].Active()
  }

  // ---------------------------------------------------------------------------
  // Decoders

  /** DecodeGeneratedToken: blank header 401; otherwise the header without "Bearer " must parse
      and validate against Jwt:Key with zero clock skew (failures throw: 500), its e-mail claim
      must name a user (missing claim throws: 500; unknown user 404); the verdict's status says
      whether that exact token is an unrevoked refresh row of the user. */
  function DecodeGeneratedToken(cfg: JwtConfig, users: seq<User>, rows: seq<RefreshToken>,
                                now: int, header: string)
    : (r: Response<HeaderVerdict>)
    ensures IsBlank(header) ==> r == Fail(401, "Please Login and pass the token")
    ensures r.data.Some? <==> r.code == 200
    ensures r.code == 200 ==> r.status && r.message == "User Authorized"
    ensures r.code in {200, 401, 404, 500}
    ensures r.code == 200 ==>
      (r.data.value.status <==> HasActiveRow(rows, RemoveAll(header, Bearer), r.data.value.userId))
    ensures r.code == 200 ==>
      cfg.codec.read(RemoveAll(header, Bearer)).Some?
      && now <= cfg.codec.read(RemoveAll(header, Bearer)).value.expires
  {
    if IsBlank(header) then Fail(401, "Please Login and pass the token")
    else
      var token := RemoveAll(header, Bearer);
      match Validate(cfg.codec, token, cfg.key, true, 0, now)
      case Malformed => Fail(500, "")
      case Rejected => Fail(500, "")
      case Accepted(claims) =>
        match FindFirst(claims, Email)
        case None => Fail(500, "")
        case Some(email) =>
          match FindByEmail(users, email)
          case None => Fail(404, "User does not exist")
          case Some(u) =>
            Response(true, 200, "User Authorized", Some(HeaderVerdict(HasActiveRow(rows, token, u.id), u.id)))
  }

  /** DecodeRefreshToken: as the gate, but without the lifetime check and without consulting the
      refresh-token table; the verdict's status is always false. */
  function DecodeRefreshToken(cfg: JwtConfig, users: seq<User>, header: string)
    : (r: Response<HeaderVerdict>)
    ensures IsBlank(header) ==> r == Fail(401, "Token not found")
    ensures r.data.Some? <==> r.code == 200
    ensures r.code in {200, 401, 404, 500}
    ensures r.code == 200 ==> r.status && !r.data.value.status
  {
    if IsBlank(header) then Fail(401, "Token not found")
    else
      var token := RemoveAll(header, Bearer);
      match Validate(cfg.codec, token, cfg.key, false, 0, 0)
      case Malformed => Fail(500, "Error occured while decoding token: ")
      case Rejected => Fail(500, "Error occured while decoding token: ")
      case Accepted(claims) =>
        match FindFirst(claims, Email)
        case None => Fail(500, "Error occured while decoding token: ")
        case Some(email) =>
          match FindByEmail(users, email)
          case None => Fail(404, "User not found")
          case Some(u) =>
            Response(true, 200, "Token decoded successfully", Some(HeaderVerdict(false, u.id)))
  }

  /** How a protected operation reads the gate's answer: no payload (reading Data.Status
      throws), a false status, or the caller's user id. */
  datatype Gate = NoVerdict | Denied | Granted(userId: string)

  function GateOf(r: Response<HeaderVerdict>): Gate
  {
    match r.data
    case None => NoVerdict
    case Some(v) => if v.status then Granted(v.userId) else Denied
  }

  /** The gate of a protected operation, over the tables at one moment. */
  function GateAt(s: Store, cfg: JwtConfig, now: int, header: string): Gate
  {
    GateOf(DecodeGeneratedToken(cfg, s.users, s.refreshTokens, now, header))
  }

  /** The gate of a protected operation. */
  function Authorize(db: DataContext, cfg: JwtConfig, now: int, header: string): Gate
    reads db
  {
    GateAt(db.Snapshot(), cfg, now, header)
  }

  /** Both decoders name a registered user: the one their token's e-mail claim finds. */
  lemma VerdictNamesUser(cfg: JwtConfig, users: seq<User>, rows: seq<RefreshToken>, now: int,
                         header: string)
    ensures var r := DecodeGeneratedToken(cfg, users, rows, now, header);
            r.data.Some? ==> exists u :: u in users && u.id == r.data.value.userId
    ensures var r := DecodeRefreshToken(cfg, users, header);
            r.data.Some? ==> exists u :: u in users && u.id == r.data.value.userId
  {
  }

  /** A granted caller is a registered user presenting an unexpired token that is an unrevoked
      row of theirs; a blank header yields no verdict at all. */
  lemma GrantedMeans(cfg: JwtConfig, users: seq<User>, rows: seq<RefreshToken>, now: int,
                     header: string)
    ensures GateOf(DecodeGeneratedToken(cfg, users, rows, now, header)).Granted? ==>
      var uid := GateOf(DecodeGeneratedToken(cfg, users, rows, now, header)).userId;
      (exists u :: u in users && u.id == uid) && HasActiveRow(rows, RemoveAll(header, Bearer), uid)
    ensures IsBlank(header) ==> GateOf(DecodeGeneratedToken(cfg, users, rows, now, header)) == NoVerdict
  {
    VerdictNamesUser(cfg, users, rows, now, header);
  }

  // ---------------------------------------------------------------------------
  // Token life cycle

  /** A header carrying token t, with or without the scheme prefix, strips back to t. */
  predicate Carries(header: string, t: string)
  {
    !Occurs(Bearer, t) && (header == Bearer + t || (header == t && !IsBlank(t)))
  }

  lemma CarriesStrips(header: string, t: string)
    requires Carries(header, t)
    ensures RemoveAll(header, Bearer) == t && !IsBlank(header)
  {
    StripBearer(t);
    if header == Bearer + t {
      assert !IsWhiteSpace(header[0]);
    }
  }

  /** A token recorded for u by SetRefreshToken authorizes u while it is unexpired, provided it
      is signed with Jwt:Key and its e-mail claim finds u. */
  lemma RecordedTokenAuthorizes(cfg: JwtConfig, users: seq<User>, rows: seq<RefreshToken>,
                                u: User, t: JwtToken, now: int, later: int, header: string)
    requires FindByEmail(users, u.email) == Some(u)
    requires FindFirst(t.claims, Email) == Some(u.email) && t.signingKey == Some(cfg.key)
    requires later <= t.expires
    requires RoundTrips(cfg.codec, t) && Carries(header, cfg.codec.write(t))
    ensures DecodeGeneratedToken(cfg, users, Rotate(rows, cfg, u.id, cfg.codec.write(t), now),
                                 later, header)
            == Response(true, 200, "User Authorized", Some(HeaderVerdict(true, u.id)))
  {
    var s := cfg.codec.write(t);
    var rows' := Rotate(rows, cfg, u.id, s, now);
    CarriesStrips(header, s);
    assert rows'[|rows|].token == s && rows'[|rows|].appUserId == u.id && rows'[|rows|].Active();
    assert HasActiveRow(rows', s, u.id);
  }

  /** Issue then check: the token GenerateTokenAsync issued to u and SetRefreshToken recorded
      authorizes u until it expires. */
  lemma IssuedTokenAuthorizes(cfg: JwtConfig, users: seq<User>, rows: seq<RefreshToken>, u: User,
                              now: int, later: int, header: string)
    requires FindByEmail(users, u.email) == Some(u)
    requires RoundTrips(cfg.codec, AccessToken(cfg, u, now))
    requires Carries(header, cfg.codec.write(AccessToken(cfg, u, now)))
    requires later <= now + Lifetime(cfg)
    ensures DecodeGeneratedToken(cfg, users, Rotate(rows, cfg, u.id, cfg.codec.write(AccessToken(cfg, u, now)), now),
                                 later, header)
            == Response(true, 200, "User Authorized", Some(HeaderVerdict(true, u.id)))
  {
    AccessClaimsRead(u);
    RecordedTokenAuthorizes(cfg, users, rows, u, AccessToken(cfg, u, now), now, later, header);
  }

  /** After SetRefreshToken for u with token t, the only token the gate accepts for u is t. */
  lemma OnlyNewestTokenAuthorizes(cfg: JwtConfig, users: seq<User>, rows: seq<RefreshToken>,
                                  userId: string, t: string, now: int, later: int, header: string)
    ensures
      var r := DecodeGeneratedToken(cfg, users, Rotate(rows, cfg, userId, t, now), later, header);
      r.data.Some? && r.data.value.userId == userId ==> (r.data.value.status <==> RemoveAll(header, Bearer) == t)
  {
    var rows' := Rotate(rows, cfg, userId, t, now);
    var r := DecodeGeneratedToken(cfg, users, rows', later, header);
    if r.data.Some? && r.data.value.userId == userId {
      var s := RemoveAll(header, Bearer);
      if s == t {
        assert rows'[|rows|].token == t;
      }
      if r.data.value.status {
        var i :| 0 <= i < |rows'| && rows'[i].token == s && rows'[i].appUserId == userId && rows'[i].Active();
        assert i == |rows|;
      }
    }
  }

  /** Once the issued token has expired, the gate throws (500) while DecodeRefreshToken still
      resolves it to its user. */
  lemma ExpiredTokenStillRefreshes(cfg: JwtConfig, users: seq<User>, rows: seq<RefreshToken>,
                                   u: User, now: int, later: int, header: string)
    requires FindByEmail(users, u.email) == Some(u)
    requires RoundTrips(cfg.codec, AccessToken(cfg, u, now))
    requires Carries(header, cfg.codec.write(AccessToken(cfg, u, now)))
    requires later > now + Lifetime(cfg)
    ensures DecodeGeneratedToken(cfg, users, rows, later, header).code == 500
    ensures DecodeRefreshToken(cfg, users, header)
            == Response(true, 200, "Token decoded successfully", Some(HeaderVerdict(false, u.id)))
  {
    CarriesStrips(header, cfg.codec.write(AccessToken(cfg, u, now)));
    AccessClaimsRead(u);
  }
}
