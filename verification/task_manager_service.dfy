// TaskManagerService: accounts. Login, registration, e-mail verification,
// password reset by one-time code, user deletion, and the exchange of a
// refresh token for a new token.
module TaskManagerService {
  import opened Common
  import opened Domain
  import opened Jwt
  import opened TokenService

  /** A message handed to the Mailgun sender (the body is not modelled). */
  datatype Mail = Mail(to: string, subject: string)

  /** The ASP.NET Identity and Mailgun calls whose outcome this service only observes. */
  datatype Collaborators = Collaborators(
    // CreateAsync's user and password validators, apart from the duplicate user name check
    acceptsNewUser: (User, string) -> bool,
    // GenerateEmailConfirmationTokenAsync; None where it throws
    confirmationToken: User -> Option<string>,
    // WebEncoders.Base64UrlDecode followed by UTF-8 decoding; None where it throws
    base64UrlDecode: string -> Option<string>,
    // ConfirmEmailAsync(user, token) succeeds
    confirmsEmail: (User, string) -> bool,
    // VerifyTwoFactorTokenAsync(user, "Email", otp)
    verifiesOtp: (User, string) -> bool,
    // ResetPasswordAsync's password validators accept the new password
    acceptsPassword: (User, string) -> bool,
    // DeleteAsync(user) succeeds
    deletes: User -> bool,
    // SendEmailByMailgunAsync reports success
    delivers: Mail -> bool)

  datatype RegisterDto = RegisterDto(firstName: string, lastName: string, username: string,
                                     email: string, phoneNumber: string, password: string,
                                     confirmPassword: string)

  /** TokenResponseDto. */
  datatype TokenResponse = TokenResponse(email: string, token: string)

  /** GetUserByEmailOrUsernameAsync: a name containing '@' is looked up as an e-mail. */
  function GetUserByEmailOrUsername(users: seq<User>, username: string): (r: Option<User>)
    ensures r.Some? ==> r.value in users && username != ""
    ensures r.Some? && '@' in username ==> r.value.email == username
    ensures r.Some? && '@' !in username ==> r.value.normalizedUserName == username
  {
    if username != "" && '@' in username then FindByEmail(users, username)
    else if username != "" then FindByName(users, username)
    else None
  }

  /** Either identifier finds the user when it is the first user carrying it, except that a
      user name containing '@' is only ever tried as an e-mail. The name that works is the
      stored lookup name, which UserManager recomputes from the user name at each save. */
  lemma LoginIdentifiers(users: seq<User>, u: User)
    ensures FindByEmail(users, u.email) == Some(u) && '@' in u.email
            ==> GetUserByEmailOrUsername(users, u.email) == Some(u)
    ensures FindByName(users, u.normalizedUserName) == Some(u) && u.normalizedUserName != ""
            && '@' !in u.normalizedUserName
            ==> GetUserByEmailOrUsername(users, u.normalizedUserName) == Some(u)
    ensures '@' in u.userName && (forall v :: v in users ==> v.email != u.userName)
            ==> GetUserByEmailOrUsername(users, u.userName).None?
  {
  }

  /** LoginUserAsync. The token is issued for whoever the name lookup finds, and recorded as a
      refresh-token row of the user that signed in; that record, and the user's recomputed lookup
      name, are saved only when UserManager's validator accepts the user (SetRefreshToken). */
  method LoginUserAsync(db: DataContext, cfg: JwtConfig, now: int, username: string, password: string)
    returns (r: Response<string>)
    requires db.Valid()
    modifies db
    ensures db.Valid()
    ensures db.tasks == old(db.tasks)
    ensures db.categories == old(db.categories) && db.comments == old(db.comments)
    ensures r.code != 200 ==> db.users == old(db.users) && db.refreshTokens == old(db.refreshTokens)
    ensures var u := GetUserByEmailOrUsername(old(db.users), username);
      if u.None? then r == Fail(401, "Invalid username or email.")
      else if !PasswordMatches(u.value, password) then r == Fail(401, "Invalid password.")
      else
        var issuer := FindByName(old(db.users), u.value.userName);
        if issuer.None? || !PasswordMatches(issuer.value, password) then
          r == Fail(500, "An error occurred during user login : ")
        else
          var token := cfg.codec.write(AccessToken(cfg, issuer.value, now));
          r == Response(true, 200, "Login successful.", Some(token))
          && match UpdateStoredUser(old(db.users), u.value.id)
             case None => db.users == old(db.users) && db.refreshTokens == old(db.refreshTokens)
             case Some(saved) =>
               db.users == saved && db.refreshTokens == Rotate(old(db.refreshTokens), cfg, u.value.id, token, now)
  {
    var user := GetUserByEmailOrUsername(db.users, username);
    if user.None? {
      return Fail(401, "Invalid username or email.");
    }
    if !PasswordMatches(user.value, password) {
      return Fail(401, "Invalid password.");
    }
    var token := GenerateTokenAsync(db, cfg, now, user.value.userName, password);
    if token.None? {
      return Fail(500, "An error occurred during user login : ");
    }
    var _ := SetRefreshToken(db, cfg, now, user, token.value);
    r := Response(true, 200, "Login successful.", Some(token.value));
  }

  /** Signing in with a user name that is unique among the users, then presenting the returned
      token, authorizes that user until the token expires. */
  lemma LoginTokenAuthorizes(cfg: JwtConfig, users: seq<User>, rows: seq<RefreshToken>, u: User,
                             now: int, later: int)
    requires UniqueEmails(users) && u in users
    requires FindByName(users, u.userName) == Some(u)
    requires RoundTrips(cfg.codec, AccessToken(cfg, u, now))
    requires !Occurs(Bearer, cfg.codec.write(AccessToken(cfg, u, now)))
    requires later <= now + Lifetime(cfg)
    ensures var token := cfg.codec.write(AccessToken(cfg, u, now));
            DecodeGeneratedToken(cfg, users, Rotate(rows, cfg, u.id, token, now), later, Bearer + token)
            == Response(true, 200, "User Authorized", Some(HeaderVerdict(true, u.id)))
  {
    var i :| 0 <= i < |users| && users[i] == u;
    var e := FindByEmail(users, u.email).value;
    var k :| 0 <= k < |users| && users[k] == e;
    assert k == i;
    IssuedTokenAuthorizes(cfg, users, rows, u, now, later, Bearer + cfg.codec.write(AccessToken(cfg, u, now)));
  }

  /** After a save that the validator accepted (a sign-in, a refresh, an e-mail confirmation or a
      password reset), the user's current name, when it holds no '@', signs that user in. */
  lemma SignInByCurrentNameAfterSave(users: seq<User>, id: string)
    requires UniqueUserIds(users) && UpdateStoredUser(users, id).Some?
    ensures var after := UpdateStoredUser(users, id).value;
            var u := after[UserIndex(users, id).value];
            '@' !in u.userName ==> GetUserByEmailOrUsername(after, u.userName) == Some(u)
  {
    var i := UserIndex(users, id).value;
    SaveRefreshesNameLookup(users, i, users[i]);
    assert !IsBlank(users[i].userName);
  }

  /** SendVerificationEmailAsync: the confirmation link is mailed whenever a token could be
      generated; whether Mailgun delivered it is not consulted. */
  method SendVerificationEmailAsync(idp: Collaborators, u: User) returns (r: Response<()>, mail: Option<Mail>)
    ensures idp.confirmationToken(u).Some? ==>
      r == Response(true, 200, "Email Sent Successfully", None) && mail == Some(Mail(u.email, "Confirm Email"))
    ensures idp.confirmationToken(u).None? ==> r.code == 404 && !r.status && mail.None?
  {
    var token := idp.confirmationToken(u);
    if token.None? {
      return Fail(404, ""), None;
    }
    mail := Some(Mail(u.email, "Confirm Email"));
    r := Response(true, 200, "Email Sent Successfully", None);
  }

  /** RegisterUserAsync. The verification mail is attempted after CreateAsync whether or not the
      user was created. */
  method RegisterUserAsync(db: DataContext, idp: Collaborators, dto: RegisterDto, newId: string)
    returns (r: Response<()>, mail: Option<Mail>)
    requires db.Valid()
    requires forall u :: u in db.users ==> u.id != newId
    modifies db
    ensures db.Valid()
    ensures db.refreshTokens == old(db.refreshTokens) && db.tasks == old(db.tasks)
    ensures db.categories == old(db.categories) && db.comments == old(db.comments)
    ensures dto.password != dto.confirmPassword ==>
      r == Fail(400, "Password and confirm password do not match.") && mail.None?
      && db.users == old(db.users)
    ensures dto.password == dto.confirmPassword && FindByEmail(old(db.users), dto.email).Some? ==>
      var e := FindByEmail(old(db.users), dto.email).value;
      r == Fail(400, "User " + e.userName + " with the same email " + e.email + " already exists.")
      && mail.None? && db.users == old(db.users)
    ensures dto.password == dto.confirmPassword && FindByEmail(old(db.users), dto.email).None? ==>
      var nu := NewUser(dto, newId);
      var created := FindByName(old(db.users), dto.username).None? && idp.acceptsNewUser(nu, dto.password);
      var linked := idp.confirmationToken(nu).Some?;
      db.users == (if created then old(db.users) + [nu] else old(db.users))
      && (mail.Some? <==> linked)
      && (mail.Some? ==> mail.value == Mail(dto.email, "Confirm Email"))
      && (created && linked ==>
            r == Response(true, 200, "Email sent successfully , Please check your Email to verify ", None))
      && (created && !linked ==> r == Fail(500, "Failed to send email : "))
      && (!created ==> r == Fail(500, "Failed to register user : "))
  {
    if dto.password != dto.confirmPassword {
      return Fail(400, "Password and confirm password do not match."), None;
    }
    var existing := FindByEmail(db.users, dto.email);
    if existing.Some? {
      var e := existing.value;
      return Fail(400, "User " + e.userName + " with the same email " + e.email + " already exists."), None;
    }
    var nu := NewUser(dto, newId);
    var created := FindByName(db.users, dto.username).None? && idp.acceptsNewUser(nu, dto.password);
    if created {
      db.users := db.users + [nu];
    }
    var sent;
    sent, mail := SendVerificationEmailAsync(idp, nu);
    if created {
      if sent.status {
        r := Response(true, 200, "Email sent successfully , Please check your Email to verify ", None);
      } else {
        r := Fail(500, "Failed to send email : ");
      }
    } else {
      r := Fail(500, "Failed to register user : ");
    }
  }

  /** The user RegisterUserAsync creates: unconfirmed, without roles, looked up by the name it
      registers with. */
  function NewUser(dto: RegisterDto, id: string): User
  {
    User(id, dto.username, dto.username, dto.email, false, [], dto.firstName, dto.lastName, dto.phoneNumber,
         dto.password)
  }

  /** ResendEmailVerificationLinkAsync. */
  method ResendEmailVerificationLinkAsync(db: DataContext, idp: Collaborators, email: string)
    returns (r: Response<()>, mail: Option<Mail>)
    ensures FindByEmail(db.users, email).None? ==> r == Fail(404, "User does not exist") && mail.None?
    ensures FindByEmail(db.users, email).Some? && FindByEmail(db.users, email).value.emailConfirmed
            ==> r == Response(true, 200, "User is already verified", None) && mail.None?
    ensures FindByEmail(db.users, email).Some? && !FindByEmail(db.users, email).value.emailConfirmed
            ==> var u := FindByEmail(db.users, email).value;
                if idp.confirmationToken(u).Some? then
                  r == Response(true, 200, "Verification email has been resent successfully for user " + u.userName, None)
                  && mail == Some(Mail(u.email, "Confirm Email"))
                else
                  r == Fail(500, "Failed to resend verification email") && mail.None?
  {
    var existing := FindByEmail(db.users, email);
    if existing.None? {
      return Fail(404, "User does not exist"), None;
    }
    var u := existing.value;
    if u.emailConfirmed {
      return Response(true, 200, "User is already verified", None), None;
    }
    var sent;
    sent, mail := SendVerificationEmailAsync(idp, u);
    if sent.status {
      r := Response(true, 200, "Verification email has been resent successfully for user " + u.userName, None);
    } else {
      r := Fail(500, "Failed to resend verification email");
    }
  }

  /** DeleteUserAsync: the gate, then the requesting user, then the target, then the rule that
      only an administrator or the user themself may delete. The schema decides the rest: the
      user's refresh-token rows and comments go with the user (cascade), while a task that names
      the user as its assigner blocks the delete (restrict), which throws. */
  method DeleteUserAsync(db: DataContext, cfg: JwtConfig, idp: Collaborators, now: int,
                         userId: string, header: string)
    returns (r: Response<()>)
    requires db.Valid()
    modifies db
    ensures db.Valid()
    ensures db.tasks == old(db.tasks) && db.categories == old(db.categories)
    ensures r.code != 200 ==>
      db.users == old(db.users) && db.refreshTokens == old(db.refreshTokens) && db.comments == old(db.comments)
    ensures var g := old(Authorize(db, cfg, now, header));
      match g
      case NoVerdict => r == Fail(500, "An error occurred during user deletion.")
      case Denied => r == Fail(401, "Please Login again and pass token!")
      case Granted(rid) =>
        var requester := FindById(old(db.users), rid);
        var target := FindById(old(db.users), userId);
        if requester.None? then r == Fail(404, "Requesting User not found.")
        else if target.None? then r == Fail(404, "User not found.")
        else if !(IsInRole(requester.value, "Admin") || userId == rid) then
          r == Fail(403, "You are not authorized to delete this user.")
        else if exists t :: t in old(db.tasks) && t.assignedById == Some(userId) then
          r == Fail(500, "An error occurred during user deletion.")
        else if !idp.deletes(target.value) then r == Fail(500, "Failed to delete user.")
        else
          r == Response(true, 200, "User deleted successfully.", None)
          && db.users == Filter(old(db.users), (u: User) => u.id != userId)
          && db.refreshTokens == Filter(old(db.refreshTokens), (t: RefreshToken) => t.appUserId != userId)
          && db.comments == Filter(old(db.comments), (c: Comment) => c.commentedById != userId)
  {
    var gate := Authorize(db, cfg, now, header);
    if gate.NoVerdict? {
      return Fail(500, "An error occurred during user deletion.");
    }
    if gate.Denied? {
      return Fail(401, "Please Login again and pass token!");
    }
    var rid := gate.userId;
    var requester := FindById(db.users, rid);
    if requester.None? {
      return Fail(404, "Requesting User not found.");
    }
    var target := FindById(db.users, userId);
    if target.None? {
      return Fail(404, "User not found.");
    }
    if !(IsInRole(requester.value, "Admin") || userId == rid) {
      return Fail(403, "You are not authorized to delete this user.");
    }
    if exists t :: t in db.tasks && t.assignedById == Some(userId) {
      return Fail(500, "An error occurred during user deletion.");
    }
    if !idp.deletes(target.value) {
      return Fail(500, "Failed to delete user.");
    }
    RemoveUser(db, userId);
    r := Response(true, 200, "User deleted successfully.", None);
  }

  /** The rows the database removes with a user: the user, and by cascade the user's refresh-token
      rows and comments. */
  method RemoveUser(db: DataContext, userId: string)
    requires db.Valid()
    modifies db
    ensures db.Valid()
    ensures db.users == Filter(old(db.users), (u: User) => u.id != userId)
    ensures db.refreshTokens == Filter(old(db.refreshTokens), (t: RefreshToken) => t.appUserId != userId)
    ensures db.comments == Filter(old(db.comments), (c: Comment) => c.commentedById != userId)
    ensures db.tasks == old(db.tasks) && db.categories == old(db.categories)
  {
    FilterPairwise(db.users, (u: User) => u.id != userId, (a: User, b: User) => a.id != b.id);
    FilterPairwise(db.users, (u: User) => u.id != userId, (a: User, b: User) => a.email != b.email);
    FilterPairwise(db.refreshTokens, (t: RefreshToken) => t.appUserId != userId,
                   (a: RefreshToken, b: RefreshToken) => !(a.Active() && b.Active()) || a.appUserId != b.appUserId);
    FilterPairwise(db.comments, (c: Comment) => c.commentedById != userId,
                   (a: Comment, b: Comment) => a.commentId != b.commentId);
    db.users := Filter(db.users, (u: User) => u.id != userId);
    db.refreshTokens := Filter(db.refreshTokens, (t: RefreshToken) => t.appUserId != userId);
    db.comments := Filter(db.comments, (c: Comment) => c.commentedById != userId);
  }

  /** VerifyEmailAsync: the token is decoded before the user is looked up. ConfirmEmailAsync
      checks the token, sets EmailConfirmed and saves through UserManager, so a user the validator
      refuses also gets the 400 and nothing is saved. */
  method VerifyEmailAsync(db: DataContext, idp: Collaborators, email: string, token: string)
    returns (r: Response<()>)
    requires db.Valid()
    modifies db
    ensures db.Valid()
    ensures db.refreshTokens == old(db.refreshTokens) && db.tasks == old(db.tasks)
    ensures db.categories == old(db.categories) && db.comments == old(db.comments)
    ensures var i := FirstIndex(old(db.users), (u: User) => u.email == email);
      if idp.base64UrlDecode(token).None? then
        r == Fail(500, "An error occurred during email verification: ") && db.users == old(db.users)
      else if i.None? then
        r == Fail(404, "User not found") && db.users == old(db.users)
      else if !idp.confirmsEmail(old(db.users)[i.value], idp.base64UrlDecode(token).value) then
        r == Fail(400, "Invalid email or token   ") && db.users == old(db.users)
      else
        match SaveUser(old(db.users), i.value, old(db.users)[i.value].(emailConfirmed := true))
        case None => r == Fail(400, "Invalid email or token   ") && db.users == old(db.users)
        case Some(saved) => r == Response(true, 200, "Email verified successfully", None) && db.users == saved
  {
    var decoded := idp.base64UrlDecode(token);
    if decoded.None? {
      return Fail(500, "An error occurred during email verification: ");
    }
    var i := FirstIndex(db.users, (u: User) => u.email == email);
    if i.None? {
      return Fail(404, "User not found");
    }
    var u := db.users[i.value];
    if !idp.confirmsEmail(u, decoded.value) {
      return Fail(400, "Invalid email or token   ");
    }
    var saved := SaveUser(db.users, i.value, u.(emailConfirmed := true));
    if saved.None? {
      return Fail(400, "Invalid email or token   ");
    }
    SaveKeepsKeys(db.users, i.value, u.(emailConfirmed := true));
    db.users := saved.value;
    r := Response(true, 200, "Email verified successfully", None);
  }

  /** ForgotPasswordGenerateOTPAsync: only a confirmed e-mail gets a code; here the sender's
      answer decides the response. The mail goes to the address as given. */
  method ForgotPasswordGenerateOtpAsync(db: DataContext, idp: Collaborators, email: string)
    returns (r: Response<()>, mail: Option<Mail>)
    ensures var u := FindByEmail(db.users, email);
      if u.None? || !u.value.emailConfirmed then r == Fail(404, "Invalid Email") && mail.None?
      else
        mail == Some(Mail(email, "Password Reset OTP"))
        && (idp.delivers(mail.value) ==>
              r == Response(true, 200, "OTP sent successfully to your registered email", None))
        && (!idp.delivers(mail.value) ==> r == Fail(500, "Failed to send OTP email "))
  {
    var u := FindByEmail(db.users, email);
    if u.None? || !u.value.emailConfirmed {
      return Fail(404, "Invalid Email"), None;
    }
    var m := Mail(email, "Password Reset OTP");
    mail := Some(m);
    if idp.delivers(m) {
      r := Response(true, 200, "OTP sent successfully to your registered email", None);
    } else {
      r := Fail(500, "Failed to send OTP email ");
    }
  }

  /** ResetPasswordWithOTPAsync: the code must verify, then Identity's password rules decide and
      ResetPasswordAsync saves through UserManager, whose validator can still refuse the user (500,
      nothing saved). The UpdateAsync after a success saves the row as it already is. */
  method ResetPasswordWithOtpAsync(db: DataContext, idp: Collaborators, email: string, otp: string,
                                   newPassword: string)
    returns (r: Response<()>)
    requires db.Valid()
    modifies db
    ensures db.Valid()
    ensures db.refreshTokens == old(db.refreshTokens) && db.tasks == old(db.tasks)
    ensures db.categories == old(db.categories) && db.comments == old(db.comments)
    ensures var i := FirstIndex(old(db.users), (u: User) => u.email == email);
      if i.None? then r == Fail(404, "Invalid Email") && db.users == old(db.users)
      else if !idp.verifiesOtp(old(db.users)[i.value], otp) then
        r == Fail(404, "Invalid OTP") && db.users == old(db.users)
      else if !idp.acceptsPassword(old(db.users)[i.value], newPassword) then
        r == Fail(500, "Failed to reset password") && db.users == old(db.users)
      else
        match SaveUser(old(db.users), i.value, old(db.users)[i.value].(password := newPassword))
        case None => r == Fail(500, "Failed to reset password") && db.users == old(db.users)
        case Some(saved) =>
          r == Response(true, 200, "Password has been reset successfully.", None) && db.users == saved
  {
    var i := FirstIndex(db.users, (u: User) => u.email == email);
    if i.None? {
      return Fail(404, "Invalid Email");
    }
    var u := db.users[i.value];
    if !idp.verifiesOtp(u, otp) {
      return Fail(404, "Invalid OTP");
    }
    if !idp.acceptsPassword(u, newPassword) {
      return Fail(500, "Failed to reset password");
    }
    var saved := SaveUser(db.users, i.value, u.(password := newPassword));
    if saved.None? {
      return Fail(500, "Failed to reset password");
    }
    SaveKeepsKeys(db.users, i.value, u.(password := newPassword));
    db.users := saved.value;
    // the second UpdateAsync: its answer is ignored, and the row already holds its lookup name
    var again := SaveUser(db.users, i.value, db.users[i.value]);
    if again.Some? {
      assert again.value == db.users;
      db.users := again.value;
    }
    r := Response(true, 200, "Password has been reset successfully.", None);
  }

  /** GenerateJwtToken: the same shape as an access token but with the name and e-mail only. */
  function RefreshedToken(cfg: JwtConfig, u: User, now: int): JwtToken
  {
    JwtToken([Claim(Name, u.userName), Claim(Email, u.email)], now + Lifetime(cfg), Some(cfg.key))
  }

  /** A refreshed token names the user but drops every role claim. */
  lemma RefreshedTokenClaims(cfg: JwtConfig, u: User, now: int)
    ensures FindFirst(RefreshedToken(cfg, u, now).claims, Name) == Some(u.userName)
    ensures FindFirst(RefreshedToken(cfg, u, now).claims, Email) == Some(u.email)
    ensures RolesOf(RefreshedToken(cfg, u, now).claims) == []
  {
    var c := RefreshedToken(cfg, u, now).claims;
    assert c[1..][0] == Claim(Email, u.email);
    assert c[1..][1..] == [];
  }

  /** Some unrevoked row holds exactly this token string, whoever owns it. */
  predicate IsUnrevoked(rows: seq<RefreshToken>, token: string)
  {
    exists i :: 0 <= i < |rows| && rows[i].token == token && rows[i].Active()
  }

  /** GenerateNewRefreshToken: the presented token must be an unrevoked row (401), must decode
      to a user (a missing verdict throws: 404), the user must exist and own the given e-mail
      (404); then a role-less token is issued and recorded. The SaveChangesAsync after
      SetRefreshToken saves the rotation whether or not UserManager's validator accepted the
      user; the user row itself is saved only when it did. */
  method GenerateNewRefreshToken(db: DataContext, cfg: JwtConfig, now: int, email: string, token: string)
    returns (r: Response<TokenResponse>)
    requires db.Valid()
    modifies db
    ensures db.Valid()
    ensures db.tasks == old(db.tasks)
    ensures db.categories == old(db.categories) && db.comments == old(db.comments)
    ensures r.code != 200 ==> db.users == old(db.users) && db.refreshTokens == old(db.refreshTokens)
                              && r.data.None?
    ensures var d := DecodeRefreshToken(cfg, old(db.users), token);
      if !IsUnrevoked(old(db.refreshTokens), token) then r == Fail(401, "Token is revoked")
      else if d.data.None? then r == Fail(404, "")
      else
        var u := FindById(old(db.users), d.data.value.userId);
        if u.None? then r == Fail(404, "User Cannot be found ")
        else if u.value.email != email then r == Fail(404, "Invalid user, cannot find email ")
        else
          var t := cfg.codec.write(RefreshedToken(cfg, u.value, now));
          r == Response(true, 200, "Token is refreshed ", Some(TokenResponse(u.value.email, t)))
          && db.refreshTokens == Rotate(old(db.refreshTokens), cfg, u.value.id, t, now)
          && db.users == (match UpdateStoredUser(old(db.users), u.value.id)
                          case None => old(db.users)
                          case Some(saved) => saved)
  {
    if !IsUnrevoked(db.refreshTokens, token) {
      return Fail(401, "Token is revoked");
    }
    var d := DecodeRefreshToken(cfg, db.users, token);
    if d.data.None? {
      return Fail(404, "");
    }
    var user := FindById(db.users, d.data.value.userId);
    if user.None? {
      return Fail(404, "User Cannot be found ");
    }
    var u := user.value;
    if u.email != email {
      return Fail(404, "Invalid user, cannot find email ");
    }
    var t := cfg.codec.write(RefreshedToken(cfg, u, now));
    var rows := db.refreshTokens;
    var _ := SetRefreshToken(db, cfg, now, user, t);
    // SaveChangesAsync: the pending rotation is written even when UpdateAsync refused the user
    db.refreshTokens := Rotate(rows, cfg, u.id, t, now);
    r := Response(true, 200, "Token is refreshed ", Some(TokenResponse(u.email, t)));
  }

  /** The refreshed token authorizes its user like a fresh login does. */
  lemma RefreshedTokenAuthorizes(cfg: JwtConfig, users: seq<User>, rows: seq<RefreshToken>, u: User,
                                 now: int, later: int)
    requires FindByEmail(users, u.email) == Some(u)
    requires RoundTrips(cfg.codec, RefreshedToken(cfg, u, now))
    requires !Occurs(Bearer, cfg.codec.write(RefreshedToken(cfg, u, now)))
    requires later <= now + Lifetime(cfg)
    ensures var t := cfg.codec.write(RefreshedToken(cfg, u, now));
            DecodeGeneratedToken(cfg, users, Rotate(rows, cfg, u.id, t, now), later, Bearer + t)
            == Response(true, 200, "User Authorized", Some(HeaderVerdict(true, u.id)))
  {
    RefreshedTokenClaims(cfg, u, now);
    var t := cfg.codec.write(RefreshedToken(cfg, u, now));
    RecordedTokenAuthorizes(cfg, users, rows, u, RefreshedToken(cfg, u, now), now, later, Bearer + t);
  }

  /** A refresh token works once: when all unrevoked rows holding it belong to the refreshing
      user, after the refresh no unrevoked row holds it, so presenting it again answers 401. */
  lemma RefreshRevokesPresentedToken(rows: seq<RefreshToken>, cfg: JwtConfig, userId: string,
                                     presented: string, issued: string, now: int)
    requires presented != issued
    requires forall i :: 0 <= i < |rows| && rows[i].token == presented && rows[i].Active()
                         ==> rows[i].appUserId == userId
    ensures !IsUnrevoked(Rotate(rows, cfg, userId, issued, now), presented)
  {
    var r := Rotate(rows, cfg, userId, issued, now);
    forall i | 0 <= i < |r|
      ensures !(r[i].token == presented && r[i].Active())
    {
      if i < |rows| && rows[i].token == presented && rows[i].Active() {
        assert r[i].appUserId == userId;
      }
    }
  }
}
