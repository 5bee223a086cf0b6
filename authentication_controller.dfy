/** Controllers/AuthenticationController.cs: the endpoints under api/auth.
    The principal of a request is the claim list of its bearer token. The
    JWT middleware's own checks (signature, issuer, lifetime) are not
    modelled; the handlers' checks of the claims are. */
module Authentication {
  import opened Wrappers
  import opened Models
  import opened Guids
  import opened Responses
  import opened TokenService
  import Users
  import RefreshTokens
  import TokenHelper
  import Mfa
  import Text

  const BadCredentials := Response(Unauthorized, Message("Bad Credentials"))
  const ProvideEmail := Response(BadRequest, Message("Provide Email"))
  const InvalidToken := Response(Unauthorized, Message("Unauthorized User/Invalid token"))
  const UserNotFound := Response(NotFound, Message("User not found"))
  const NoTokens := Response(BadRequest, Message("Could not generate tokens"))
  const InvalidRefresh := Response(Unauthorized, Message("Invalid refresh token, please log in"))
  const NoAccessToken := Response(BadRequest, Plain("Could not generate access token"))
  const EnterEmail := Response(BadRequest, Message("Enter email"))
  const EmailSent := Response(Accepted, Message("Email sent"))
  const WeakPassword := Response(BadRequest, Message("Your password must be 8 characters long or more, contain at least 1 number and special character"))
  const NoSuchUser := Response(NotFound, Message("User does not exist"))
  const BadToken := Response(Unauthorized, Message("Bad Token"))
  const WrongUser := Response(Unauthorized, Message("Unauthorized User"))
  const PasswordChanged := Response(Accepted, Message("Password has been changed"))

  const ForgotSubject: string := "Forgot Password For Connect Genesys Billing Platform"
  const ChangedSubject: string := "Change Password For Connect Genesys Billing Platform"

  /** The outcome of a handler's checks: the response that ends the request,
      or the user the request goes on with. */
  datatype Gate = Reject(response: Response) | Admit(user: User)

  /** A response together with the e-mail the handler sends, if any. */
  datatype Reply = Reply(response: Response, mail: Option<Mail>)

  // ---------------------------------------------------------------------------
  // POST api/auth/login

  /** NormalLogin: an MFA token for a user whose credentials check out. */
  function NormalLogin(users: seq<User>, cfg: Config, clock: Clock, request: LoginModel, verify: (string, string) -> bool): (r: Response)
    ensures r.status == Ok <==> Users.Login(users, request, verify).Some?
    ensures r.status != Ok ==> r == BadCredentials
    ensures (forall u :: u in users ==> u.email != request.email) ==> r == BadCredentials
    ensures r.status == Ok ==>
      exists u :: u in users && u.email == request.email && u.isActive && verify(request.password, u.password)
                  && r.body == LoginCreds(NormalLoginCreds(Some(cfg.writeToken(MfaDescriptor(cfg, u, clock))), u.isFirstSignIn, u.isMfaVerified))
  {
    match Users.Login(users, request, verify)
    case None => BadCredentials
    case Some(u) =>
      var token := GenerateMfaToken(cfg, Some(u), clock);
      Response(Ok, LoginCreds(NormalLoginCreds(token, u.isFirstSignIn, u.isMfaVerified)))
  }

  // ---------------------------------------------------------------------------
  // GET api/auth/mfa-setup

  /** TwoFASetup's checks before its lookup: an e-mail is given, the token
      is an MFA token, and its e-mail claim is the lower-cased e-mail. */
  function SetupGuard(claims: seq<Claim>, email: Option<string>): (r: Option<Response>)
    ensures Text.IsNullOrEmpty(email) ==> r == Some(ProvideEmail)
    ensures !Text.IsNullOrEmpty(email) ==>
      (r.None? <==> Purpose(claims) == Some(MfaPurpose) && ClaimValue(claims, EmailClaim) == Some(Text.ToLower(email.value)))
    ensures r == None || r == Some(ProvideEmail) || r == Some(InvalidToken)
  {
    if Text.IsNullOrEmpty(email) then Some(ProvideEmail)
    else if Some(Text.ToLower(email.value)) != ClaimValue(claims, EmailClaim) || Purpose(claims) != Some(MfaPurpose) then Some(InvalidToken)
    else None
  }

  /** TwoFASetup. `first` and `second` are MFASetup's two fresh GUIDs. The
      `mfaFieldUpdate == null` test compares a bool with null and never
      holds, so "Could set up MFA" is never returned; the final re-read
      always finds the user. */
  method TwoFaSetup(users: Users.UserRepo, codec: Mfa.Codec, auth: Mfa.Authenticator, claims: seq<Claim>,
                    email: Option<string>, first: Guid, second: Guid) returns (r: Response)
    modifies users
    ensures SetupGuard(claims, email).Some? ==> r == SetupGuard(claims, email).value && users.users == old(users.users)
    ensures SetupGuard(claims, email).None? ==>
      match Users.GetUserByEmail(old(users.users), users.departments, email.value)
      case None => r == BadCredentials && users.users == old(users.users)
      case Some(u) =>
        var m := Mfa.SetupModel(codec, auth, email.value, Mfa.ChosenSecret(old(users.users), users.departments, codec, first, second));
        users.users == Users.WithMfaFields(old(users.users), Mfa.ResetRequest(u.id, m))
        && r == Response(Ok, SetupCodes(Some(m.manualEntryCode), Some(m.qrCodeUrl)))
  {
    var guard := SetupGuard(claims, email);
    if guard.Some? {
      return guard.value;
    }
    var loginResponse := Users.GetUserByEmail(users.users, users.departments, email.value);
    if loginResponse.None? {
      return BadCredentials;
    }
    var u := loginResponse.value;
    var twoFaConfig := Mfa.MfaSetup(users, codec, auth, email.value, first, second);
    var mfaFieldsModel := Mfa.ResetRequest(u.id, twoFaConfig);
    var before := users.users;
    var _ := users.UpdateMfaFields(mfaFieldsModel);
    Users.MfaFieldsEmailLookup(before, users.departments, mfaFieldsModel, u.email);
    var user := Users.GetUserByEmail(users.users, users.departments, u.email);
    assert user.Some?;
    r := Response(Ok, SetupCodes(user.value.manualCode, user.value.qrCode));
  }

  // ---------------------------------------------------------------------------
  // POST api/auth/mfa-login

  /** TwoFALogin's checks: an MFA token whose e-mail claim is the request's
      e-mail, a user with that e-mail, a stored secret that decodes and
      decrypts (FromBase64String or DecryptString throwing is the 500), and
      a PIN the authenticator accepts for it. */
  function TwoFaLoginGuard(users: seq<User>, departments: map<Guid, string>, codec: Mfa.Codec, auth: Mfa.Authenticator,
                           claims: seq<Claim>, request: TwoFaLoginModel): (r: Gate)
    ensures Purpose(claims) != Some(MfaPurpose) || ClaimValue(claims, EmailClaim) != Some(request.email) ==> r == Reject(InvalidToken)
    ensures r.Admit? ==> Purpose(claims) == Some(MfaPurpose) && ClaimValue(claims, EmailClaim) == Some(request.email)
    ensures r.Admit? ==> Users.GetUserByEmail(users, departments, request.email) == Some(r.user)
    ensures r.Admit? ==>
      Mfa.RecoverSecret(codec, r.user.twoFaKey).Some?
      && auth.validatePin(Mfa.RecoverSecret(codec, r.user.twoFaKey).value, request.code)
    ensures r.Reject? ==> r.response in {InvalidToken, UserNotFound, Error500, BadCredentials}
  {
    if Some(request.email) != ClaimValue(claims, EmailClaim) || Purpose(claims) != Some(MfaPurpose) then Reject(InvalidToken)
    else
      match Users.GetUserByEmail(users, departments, request.email)
      case None => Reject(UserNotFound)
      case Some(u) =>
        match Mfa.RecoverSecret(codec, u.twoFaKey)
        case None => Reject(Error500)
        case Some(secret) =>
          if auth.validatePin(secret, request.code) then Admit(u) else Reject(BadCredentials)
  }

  /** What TwoFALogin answers once GenerateTokens has run for `u`, and the
      sessions table it leaves behind (`rows` and `nextId` before, `rows'`
      after): a token pair and a rotated session, or "Could not generate
      tokens" with the table untouched or, when the INSERT fails, with the
      user's old session already deleted. */
  ghost predicate TokensIssued(r: Response, rows: seq<RefreshToken>, nextId: nat, rows': seq<RefreshToken>,
                               cfg: Config, clock: Clock, u: User, random: RandomBytes, insertFails: bool)
  {
    var minted := GenerateAccessToken(cfg, u, clock);
    var token := GenerateRefreshToken(random);
    if minted == "" then
      r == NoTokens && rows' == rows
    else if insertFails then
      r == NoTokens && rows' == TokenHelper.AfterDelete(rows, u.id)
    else
      r == Response(Ok, TokenPair(minted, token))
      && rows' == TokenHelper.Rotate(rows, nextId, u.id, token, clock.local + TokenHelper.RefreshLifetime)
  }

  /** The tail of TwoFALogin: GenerateTokens, then the null-or-empty test
      of both tokens. */
  method IssueTokens(sessions: RefreshTokens.RefreshTokenRepo, cfg: Config, clock: Clock, u: User,
                     random: RandomBytes, insertFails: bool) returns (r: Response)
    requires sessions.Valid()
    modifies sessions
    ensures sessions.Valid()
    ensures TokensIssued(r, old(sessions.rows), old(sessions.nextId), sessions.rows, cfg, clock, u, random, insertFails)
  {
    ghost var before, counter := sessions.rows, sessions.nextId;
    var token, refreshToken := TokenHelper.GenerateTokens(cfg, clock, sessions, u, random, insertFails);
    if Text.IsNullOrEmpty(token) || Text.IsNullOrEmpty(refreshToken) {
      r := NoTokens;
    } else {
      r := Response(Ok, TokenPair(token.value, refreshToken.value));
    }
    IssuedReply(r, token, refreshToken, before, counter, sessions.rows, sessions.nextId, cfg, clock, u, random, insertFails);
  }

  /** The null-or-empty test turns GenerateTokens's outcome into the
      answer TokensIssued describes. */
  lemma {:induction false} IssuedReply(r: Response, token: Option<string>, refreshToken: Option<string>,
                                       rows: seq<RefreshToken>, nextId: nat, rows': seq<RefreshToken>, nextId': nat,
                                       cfg: Config, clock: Clock, u: User, random: RandomBytes, insertFails: bool)
    requires TokenHelper.Generated(token, refreshToken, rows, nextId, rows', nextId', cfg, clock, u, random, insertFails)
    requires r == if Text.IsNullOrEmpty(token) || Text.IsNullOrEmpty(refreshToken) then NoTokens
                  else Response(Ok, TokenPair(token.value, refreshToken.value))
    ensures TokensIssued(r, rows, nextId, rows', cfg, clock, u, random, insertFails)
  {
    var issued := GenerateRefreshToken(random);
    assert |issued| == 88;
  }

  /** TwoFALogin. The first sign-in is completed for a user who has not yet
      verified MFA; then an access/refresh pair is issued for the user as
      read before that update. The `isUpdated == null` test never holds.
      `random` and `insertFails` are GenerateTokens's random bytes and its
      INSERT failing. */
  method TwoFaLogin(users: Users.UserRepo, sessions: RefreshTokens.RefreshTokenRepo, cfg: Config, clock: Clock,
                    codec: Mfa.Codec, auth: Mfa.Authenticator, claims: seq<Claim>, request: TwoFaLoginModel,
                    random: RandomBytes, insertFails: bool) returns (r: Response)
    requires sessions.Valid()
    modifies users, sessions
    ensures sessions.Valid()
    ensures match TwoFaLoginGuard(old(users.users), users.departments, codec, auth, claims, request)
      case Reject(response) =>
        r == response && users.users == old(users.users)
        && sessions.rows == old(sessions.rows) && sessions.nextId == old(sessions.nextId)
      case Admit(u) =>
        users.users == (if u.isFirstSignIn && !u.isMfaVerified then Users.WithFirstSignInDone(old(users.users), u.email) else old(users.users))
        && TokensIssued(r, old(sessions.rows), old(sessions.nextId), sessions.rows, cfg, clock, u, random, insertFails)
  {
    var gate := TwoFaLoginGuard(users.users, users.departments, codec, auth, claims, request);
    if gate.Reject? {
      return gate.response;
    }
    var user := gate.user;
    if user.isFirstSignIn && !user.isMfaVerified {
      var _ := users.UpdateFirstSignIn(user.email);
    }
    r := IssueTokens(sessions, cfg, clock, user, random, insertFails);
  }

  // ---------------------------------------------------------------------------
  // POST api/auth/refreshtoken

  /** RefreshToken: a new access token for a stored, unexpired refresh token
      of the user named by the request's e-mail. */
  function RefreshAccessToken(rows: seq<RefreshToken>, users: seq<User>, departments: map<Guid, string>,
                              cfg: Config, clock: Clock, payload: RefreshTokenRequest): (r: Response)
    ensures Users.GetUserByEmail(users, departments, payload.email).None? ==> r == UserNotFound
    ensures r.status == Ok ==>
      var u := Users.GetUserByEmail(users, departments, payload.email);
      u.Some? && r.body == AccessTokenOnly(GenerateAccessToken(cfg, u.value, clock))
      && exists x :: x in rows && x.token == payload.refreshToken && x.userId == u.value.id && x.expiresOn >= clock.local
    ensures
      var u := Users.GetUserByEmail(users, departments, payload.email);
      var s := RefreshTokens.GetRefreshTokenByRefreshToken(rows, payload.refreshToken);
      (u.Some? && s.Some? && s.value.userId == u.value.id && s.value.expiresOn >= clock.local
       && GenerateAccessToken(cfg, u.value, clock) != "") ==> r.status == Ok
    ensures r.status != Ok ==> r in {UserNotFound, InvalidRefresh, NoAccessToken}
    ensures r == UserNotFound ==> Users.GetUserByEmail(users, departments, payload.email).None?
    ensures
      var u := Users.GetUserByEmail(users, departments, payload.email);
      var s := RefreshTokens.GetRefreshTokenByRefreshToken(rows, payload.refreshToken);
      (u.Some? && (s.None? || s.value.expiresOn < clock.local || s.value.userId != u.value.id)) ==> r == InvalidRefresh
  {
    var refreshToken := RefreshTokens.GetRefreshTokenByRefreshToken(rows, payload.refreshToken);
    match Users.GetUserByEmail(users, departments, payload.email)
    case None => UserNotFound
    case Some(user) =>
      if refreshToken.None? || refreshToken.value.expiresOn < clock.local || refreshToken.value.userId != user.id then
        InvalidRefresh
      else
        var accessToken := GenerateAccessToken(cfg, user, clock);
        if accessToken == "" then NoAccessToken else Response(Ok, AccessTokenOnly(accessToken))
  }

  // ---------------------------------------------------------------------------
  // POST api/auth/forgot-password

  /** The link both password e-mails carry. */
  function ChangePasswordLink(baseUrl: string, token: string, email: string): string
  {
    baseUrl + "/auth/change-password?token=" + token + "&email=" + email
  }

  /** The e-mail that carries a change-password token for `u`. */
  function PasswordMail(cfg: Config, clock: Clock, u: User, subject: string): (m: Mail)
    ensures m.recipient == u.email && m.subject == subject && m.name == u.firstname
    ensures m.link == ChangePasswordLink(cfg.frontEndBaseUrl, cfg.writeToken(ChangePasswordDescriptor(cfg, u, clock)), u.email)
  {
    var token := GenerateChangePasswordToken(cfg, Some(u), clock);
    Mail(u.email, subject, u.firstname, ChangePasswordLink(cfg.frontEndBaseUrl, token.value, u.email))
  }

  /** ForgotPassword: a change-password link is mailed to a known user. */
  function ForgotPassword(users: seq<User>, departments: map<Guid, string>, cfg: Config, clock: Clock,
                          payload: ForgotPasswordRequest): (r: Reply)
    ensures Text.IsNullOrEmpty(payload.email) ==> r == Reply(EnterEmail, None)
    ensures !Text.IsNullOrEmpty(payload.email) && Users.GetUserByEmail(users, departments, payload.email.value).None? ==>
      r == Reply(Response(NotFound, NoBody), None)
    ensures r.mail.Some? <==> r.response == EmailSent
    ensures !Text.IsNullOrEmpty(payload.email) && Users.GetUserByEmail(users, departments, payload.email.value).Some? ==>
      r.response == EmailSent
    ensures r.mail.Some? ==>
      exists u :: u in users && Some(u.email) == payload.email && Users.Joined(departments, u)
                  && r.mail.value == PasswordMail(cfg, clock, u, ForgotSubject)
  {
    if Text.IsNullOrEmpty(payload.email) then Reply(EnterEmail, None)
    else
      match Users.GetUserByEmail(users, departments, payload.email.value)
      case None => Reply(Response(NotFound, NoBody), None)
      case Some(user) => Reply(EmailSent, Some(PasswordMail(cfg, clock, user, ForgotSubject)))
  }

  // ---------------------------------------------------------------------------
  // POST api/auth/change-password

  /** ChangePassword's checks, in the source's order: the sid claim parses
      (Guid.Parse throwing is the 500), the new password meets the policy,
      the user exists, the token is a change-password token, and its sid is
      that user's id. */
  function ChangePasswordGuard(users: seq<User>, departments: map<Guid, string>, claims: seq<Claim>,
                               request: LoginModel, isPasswordValid: string -> bool): (r: Gate)
    ensures SubjectId(claims).None? ==> r == Reject(Error500)
    ensures SubjectId(claims).Some? && !isPasswordValid(request.password) ==> r == Reject(WeakPassword)
    ensures r.Admit? ==>
      Purpose(claims) == Some(ChangePasswordPurpose) && SubjectId(claims) == Some(r.user.id)
      && isPasswordValid(request.password) && Users.GetUserByEmail(users, departments, request.email) == Some(r.user)
    ensures
      var u := Users.GetUserByEmail(users, departments, request.email);
      (isPasswordValid(request.password) && Purpose(claims) == Some(ChangePasswordPurpose)
       && u.Some? && SubjectId(claims) == Some(u.value.id)) ==> r == Admit(u.value)
    ensures r.Reject? ==> r.response in {Error500, WeakPassword, NoSuchUser, BadToken, WrongUser}
  {
    match SubjectId(claims)
    case None => Reject(Error500)
    case Some(tokenUserId) =>
      var user := Users.GetUserByEmail(users, departments, request.email);
      if !isPasswordValid(request.password) then Reject(WeakPassword)
      else if user.None? then Reject(NoSuchUser)
      else if Purpose(claims) != Some(ChangePasswordPurpose) then Reject(BadToken)
      else if tokenUserId != user.value.id then Reject(WrongUser)
      else Admit(user.value)
  }

  /** ChangePassword. `isPasswordValid` is PasswordHelper.IsPasswordValid and
      `hashed` is the BCrypt hash updatePassword stores. The
      `isUpdated == null` test never holds, so "Could not change password"
      is never returned. */
  method ChangePassword(users: Users.UserRepo, cfg: Config, clock: Clock, claims: seq<Claim>, request: LoginModel,
                        isPasswordValid: string -> bool, hashed: string) returns (r: Reply)
    modifies users
    ensures match ChangePasswordGuard(old(users.users), users.departments, claims, request, isPasswordValid)
      case Reject(response) => r == Reply(response, None) && users.users == old(users.users)
      case Admit(u) =>
        users.users == Users.WithPassword(old(users.users), request.email, hashed)
        && r == Reply(PasswordChanged, Some(PasswordMail(cfg, clock, u, ChangedSubject)))
  {
    var gate := ChangePasswordGuard(users.users, users.departments, claims, request, isPasswordValid);
    if gate.Reject? {
      return Reply(gate.response, None);
    }
    var user := gate.user;
    var _ := users.UpdatePassword(request, hashed);
    var mail := PasswordMail(cfg, clock, user, ChangedSubject);
    r := Reply(PasswordChanged, Some(mail));
  }

  // ---------------------------------------------------------------------------
  // Properties across endpoints

  /** Token purposes isolate the endpoints: an access token or a
      change-password token never gets past the MFA endpoints' checks. */
  lemma {:induction false} OnlyMfaTokensReachMfaEndpoints(cfg: Config, u: User, clock: Clock, email: string,
                                       users: seq<User>, departments: map<Guid, string>, codec: Mfa.Codec,
                                       auth: Mfa.Authenticator, request: TwoFaLoginModel)
    requires email != ""
    ensures SetupGuard(AccessDescriptor(cfg, u, clock).subject, Some(email)) == Some(InvalidToken)
    ensures SetupGuard(ChangePasswordDescriptor(cfg, u, clock).subject, Some(email)) == Some(InvalidToken)
    ensures TwoFaLoginGuard(users, departments, codec, auth, AccessDescriptor(cfg, u, clock).subject, request) == Reject(InvalidToken)
    ensures TwoFaLoginGuard(users, departments, codec, auth, ChangePasswordDescriptor(cfg, u, clock).subject, request) == Reject(InvalidToken)
  {
    PurposesDiffer();
  }

  lemma {:induction false} PurposesDiffer()
    ensures MfaPurpose != AccessPurpose && MfaPurpose != ChangePasswordPurpose && AccessPurpose != ChangePasswordPurpose
  {
    assert MfaPurpose[0] != AccessPurpose[0] && MfaPurpose[0] != ChangePasswordPurpose[0] && AccessPurpose[0] != ChangePasswordPurpose[0];
  }

  /** An MFA token or an access token cannot change a password, once the new
      password meets the policy and the user exists. */
  lemma {:induction false} OnlyChangePasswordTokensChangePasswords(cfg: Config, u: User, clock: Clock, users: seq<User>,
                                                departments: map<Guid, string>, request: LoginModel,
                                                isPasswordValid: string -> bool)
    requires isPasswordValid(request.password)
    requires Users.GetUserByEmail(users, departments, request.email).Some?
    ensures ChangePasswordGuard(users, departments, MfaDescriptor(cfg, u, clock).subject, request, isPasswordValid) == Reject(BadToken)
    ensures ChangePasswordGuard(users, departments, AccessDescriptor(cfg, u, clock).subject, request, isPasswordValid) == Reject(BadToken)
  {
    PurposesDiffer();
  }

  /** The token the MFA setup's user received at normal login gets through
      the MFA login once the PIN matches the secret MFASetup chose: what
      TwoFASetup stores is what TwoFALogin recovers. */
  lemma {:induction false} SetupThenLogin(users: seq<User>, departments: map<Guid, string>, codec: Mfa.Codec, auth: Mfa.Authenticator,
                       cfg: Config, clock: Clock, u: User, email: string, k: string, code: string)
    requires Mfa.Inverse(codec)
    requires Users.GetUserByEmail(users, departments, u.email) == Some(u)
    requires auth.validatePin(k, code)
    ensures
      var m := Mfa.SetupModel(codec, auth, email, k);
      var after := Users.WithMfaFields(users, Mfa.ResetRequest(u.id, m));
      TwoFaLoginGuard(after, departments, codec, auth, MfaDescriptor(cfg, u, clock).subject, TwoFaLoginModel(u.email, code))
        == Admit(u.(isFirstSignIn := true, isMfaVerified := false, twoFaKey := Some(m.mfaKey),
                    qrCode := Some(m.qrCodeUrl), manualCode := Some(m.manualEntryCode)))
  {
    var m := Mfa.SetupModel(codec, auth, email, k);
    Users.MfaFieldsEmailLookup(users, departments, Mfa.ResetRequest(u.id, m), u.email);
    Mfa.RecoverStoredSecret(codec, k);
  }

  /** A user who has never set up MFA holds a NULL twoFAKey: its MFA token
      reaches TwoFALogin's decryption, which throws, whatever the code. */
  lemma {:induction false} LoginBeforeSetupFails(users: seq<User>, departments: map<Guid, string>, codec: Mfa.Codec,
                                                 auth: Mfa.Authenticator, cfg: Config, clock: Clock, u: User, code: string)
    requires Users.GetUserByEmail(users, departments, u.email) == Some(u)
    requires u.twoFaKey.None?
    ensures TwoFaLoginGuard(users, departments, codec, auth, MfaDescriptor(cfg, u, clock).subject, TwoFaLoginModel(u.email, code))
      == Reject(Error500)
  {
    assert Mfa.RecoverSecret(codec, u.twoFaKey).None?;
  }

  /** The link ForgotPassword mails, and the one ChangePassword mails
      afterwards, carry a token that passes ChangePassword's checks for the
      same user with any password that meets the policy. */
  lemma {:induction false} MailedTokenChangesPassword(users: seq<User>, departments: map<Guid, string>, cfg: Config, clock: Clock,
                                   u: User, password: string, isPasswordValid: string -> bool)
    requires Users.GetUserByEmail(users, departments, u.email) == Some(u)
    requires isPasswordValid(password)
    ensures ChangePasswordGuard(users, departments, ChangePasswordDescriptor(cfg, u, clock).subject,
                                LoginModel(u.email, password), isPasswordValid) == Admit(u)
  {
  }

  /** The password ChangePassword stores is the one Login then accepts:
      with a hash that verifies the new password, Login under the e-mail
      returns a row of that e-mail holding the new hash, and, when the
      admitted user is the only row with that e-mail, returns that user
      exactly when it is active. */
  lemma {:induction false} ChangedPasswordLogsIn(users: seq<User>, departments: map<Guid, string>, claims: seq<Claim>,
                                                 request: LoginModel, isPasswordValid: string -> bool, hashed: string,
                                                 verify: (string, string) -> bool)
    requires ChangePasswordGuard(users, departments, claims, request, isPasswordValid).Admit?
    requires verify(request.password, hashed)
    ensures
      var u := ChangePasswordGuard(users, departments, claims, request, isPasswordValid).user;
      var r := Users.Login(Users.WithPassword(users, request.email, hashed), request, verify);
      (r.Some? ==> r.value.email == request.email && r.value.password == hashed)
      && ((forall v :: v in users && v.email == request.email ==> v == u) ==>
          r == if u.isActive then Some(u.(password := hashed)) else None)
  {
    var u := ChangePasswordGuard(users, departments, claims, request, isPasswordValid).user;
    assert request == LoginModel(request.email, request.password);
    Users.PasswordThenLogin(users, request.email, hashed, request.password, verify);
    assert u in users && u.email == request.email;
  }

  /** A refresh token issued by a rotation is accepted while it is
      unexpired, provided no older row carries the same token. */
  lemma {:induction false} RefreshAfterRotation(rows: seq<RefreshToken>, nextId: nat, users: seq<User>, departments: map<Guid, string>,
                             cfg: Config, clock: Clock, u: User, token: string, expiresOn: Time)
    requires Users.GetUserByEmail(users, departments, u.email) == Some(u)
    requires forall x :: x in rows ==> x.token != token
    requires expiresOn >= clock.local && GenerateAccessToken(cfg, u, clock) != ""
    ensures RefreshAccessToken(TokenHelper.Rotate(rows, nextId, u.id, token, expiresOn), users, departments, cfg, clock,
                               RefreshTokenRequest(u.email, token)) == Response(Ok, AccessTokenOnly(GenerateAccessToken(cfg, u, clock)))
  {
    TokenHelper.RotateFindsNewToken(rows, nextId, u.id, token, expiresOn);
  }

  /** After a rotation, the user's earlier refresh tokens no longer refresh. */
  lemma {:induction false} RotationRevokesOldToken(rows: seq<RefreshToken>, nextId: nat, users: seq<User>, departments: map<Guid, string>,
                                cfg: Config, clock: Clock, email: string, userId: Guid, token: string, expiresOn: Time,
                                oldToken: string)
    requires RefreshTokens.WellNumbered(rows, nextId) && RefreshTokens.AtMostOneOf(rows, userId)
    requires oldToken != token
    requires Users.GetUserByEmail(users, departments, email).Some? && Users.GetUserByEmail(users, departments, email).value.id == userId
    ensures RefreshAccessToken(TokenHelper.Rotate(rows, nextId, userId, token, expiresOn), users, departments, cfg, clock,
                               RefreshTokenRequest(email, oldToken)) == InvalidRefresh
  {
    TokenHelper.RotateRevokes(rows, nextId, userId, token, expiresOn, oldToken);
  }
}
