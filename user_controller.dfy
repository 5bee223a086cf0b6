/** Controllers/UserController.cs: the endpoints under api/users. Reading
    endpoints answer only to access tokens; a user may update only its own
    record; the admin endpoint is gated by the framework's role check. */
module UserEndpoints {
  import opened Wrappers
  import opened Models
  import opened Guids
  import opened Responses
  import opened TokenService
  import Users
  import Mfa
  import Text

  const BadAccessToken := Response(Unauthorized, Message("Bad token"))
  const UserNotFound := Response(NotFound, Message("User not found"))
  const EmailExists := Response(Conflict, Message("Email already exists"))
  const NoDepartment := Response(NotFound, Message("Department does not exist"))
  const NotAdded := Response(BadRequest, Message("Could not add user"))
  const Registered := Response(Ok, Message("User registered successfully"))
  const WrongUser := Response(Unauthorized, Message("Unauthorized user"))
  const NotUpdated := Response(BadRequest, Message("Could not update user"))
  const MfaNotUpdated := Response(BadRequest, Message("Could not update mfa fields"))
  const Updated := Response(Ok, Message("User updated successfully"))
  const NoSuchRole := Response(BadRequest, Message("That role does not exist"))
  /** The framework's answer when [Authorize(Roles = "admin")] fails. */
  const Forbid := Response(Forbidden, NoBody)

  const ValidRoles: seq<string> := ["manager", "user", "admin"]

  /** The Id of a `new User { ... }` that sets none: Guid.Empty. */
  const EmptyGuid: Guid := [0, 0, 0, 0, 0, 0, 0, 0, 0, 0, 0, 0, 0, 0, 0, 0, 0, 0, 0, 0, 0, 0, 0, 0, 0, 0, 0, 0, 0, 0, 0, 0]

  /** The handlers' `tokenType != "access-token"` test, negated. */
  predicate AccessToken(claims: seq<Claim>)
  {
    Purpose(claims) == Some(AccessPurpose)
  }

  /** [Authorize(Roles = "admin")]: some role claim of the principal is
      "admin". */
  predicate InAdminRole(claims: seq<Claim>)
  {
    exists i :: 0 <= i < |claims| && claims[i] == Claim(RoleClaim, "admin")
  }

  /** The UserDTO of a joined user: its DepartmentName is the joined
      department's name. */
  function DtoOf(departments: map<Guid, string>, u: User): (d: UserDto)
    requires Users.Joined(departments, u)
    ensures d.id == u.id && d.email == u.email && d.role == u.role && d.isActive == u.isActive
    ensures d.firstname == u.firstname && d.lastname == u.lastname && d.departmentName == departments[u.departmentId]
  {
    ToDto(u, departments[u.departmentId])
  }

  // ---------------------------------------------------------------------------
  // GET api/users/me

  /** GetCurrentUser: the DTO of the user named by the token's sid. The sid
      is parsed before the token type is checked. */
  function GetCurrentUser(users: seq<User>, departments: map<Guid, string>, claims: seq<Claim>): (r: Response)
    ensures SubjectId(claims).None? ==> r == Error500
    ensures SubjectId(claims).Some? && !AccessToken(claims) ==> r == BadAccessToken
    ensures r.status == Ok ==>
      AccessToken(claims) && SubjectId(claims).Some?
      && exists u :: u in users && u.id == SubjectId(claims).value && Users.Joined(departments, u)
                     && r.body == OneUser(DtoOf(departments, u))
    ensures SubjectId(claims).Some? && AccessToken(claims) ==>
      (r.status == Ok <==> Users.GetUserById(users, departments, SubjectId(claims).value).Some?)
    ensures r.status != Ok ==> r in {Error500, BadAccessToken, UserNotFound}
  {
    match SubjectId(claims)
    case None => Error500
    case Some(tokenUserId) =>
      if !AccessToken(claims) then BadAccessToken
      else
        match Users.GetUserById(users, departments, tokenUserId)
        case None => UserNotFound
        case Some(user) => Response(Ok, OneUser(DtoOf(departments, user)))
  }

  // ---------------------------------------------------------------------------
  // POST api/users

  /** The user Register builds: active, role "user", first sign-in pending,
      MFA not verified, no MFA material, and the hashed password. */
  function NewUser(payload: RegisterModel, hashed: string): (u: User)
    ensures u.email == payload.email && u.firstname == payload.firstname && u.lastname == payload.lastname
    ensures u.departmentId == payload.departmentId && u.password == hashed
    ensures u.isActive && u.role == "user" && u.isFirstSignIn && !u.isMfaVerified
    ensures u.twoFaKey.None? && u.qrCode.None? && u.manualCode.None?
  {
    User(EmptyGuid, payload.firstname, payload.lastname, payload.email, hashed, "user",
         true, true, false, None, None, None, payload.departmentId)
  }

  /** Register. `hashed` is BCrypt.HashPassword(payload.Password) and
      `newId` the Id the database assigns. GetDepartmentById is the
      membership test of the departments table. The duplicate check looks
      the e-mail up as given, while AddUser stores it lower-cased. */
  method Register(users: Users.UserRepo, payload: RegisterModel, hashed: string, newId: Guid) returns (r: Response)
    modifies users
    ensures Users.GetUserByEmail(old(users.users), users.departments, payload.email).Some? ==>
      r == EmailExists && users.users == old(users.users)
    ensures (Users.GetUserByEmail(old(users.users), users.departments, payload.email).None?
             && payload.departmentId !in users.departments) ==>
      r == NoDepartment && users.users == old(users.users)
    ensures (Users.GetUserByEmail(old(users.users), users.departments, payload.email).None?
             && payload.departmentId in users.departments) ==>
      r == Registered && users.users == old(users.users) + [Users.Inserted(NewUser(payload, hashed), newId)]
  {
    var userExists := Users.GetUserByEmail(users.users, users.departments, payload.email);
    var deptExists := payload.departmentId in users.departments;
    if userExists.Some? {
      return EmailExists;
    }
    if !deptExists {
      return NoDepartment;
    }
    var user := NewUser(payload, hashed);
    var isAdded := users.AddUser(user, newId);
    if !isAdded {
      return NotAdded;
    }
    r := Registered;
  }

  /** A registered user is found under its lower-cased e-mail, with MFA
      still to be set up, unless a joined user already holds that
      lower-cased e-mail. */
  lemma {:induction false} RegisteredUserFound(users: seq<User>, departments: map<Guid, string>, payload: RegisterModel, hashed: string, newId: Guid)
    requires Users.GetUserByEmail(users, departments, Text.ToLower(payload.email)).None?
    requires payload.departmentId in departments
    ensures
      var found := Users.GetUserByEmail(users + [Users.Inserted(NewUser(payload, hashed), newId)], departments, Text.ToLower(payload.email));
      found.Some? && found.value.id == newId && found.value.role == "user" && found.value.password == hashed
      && found.value.isActive && found.value.isFirstSignIn && !found.value.isMfaVerified && found.value.twoFaKey.None?
  {
    Users.AddUserThenGetByEmail(users, departments, NewUser(payload, hashed), newId);
    LowerUser();
  }

  lemma {:induction false} LowerUser()
    ensures Text.ToLower("user") == "user"
  {
  }

  // ---------------------------------------------------------------------------
  // GET api/users, GET api/users/emails, GET api/users/{id}

  /** GetAllUsers: the DTO of every joined user, in table order. */
  function GetAllUsers(users: seq<User>, departments: map<Guid, string>, claims: seq<Claim>): (r: Response)
    ensures !AccessToken(claims) ==> r == BadAccessToken
    ensures AccessToken(claims) ==> r.status == Ok && r.body.ManyUsers?
    ensures AccessToken(claims) ==> |r.body.dtos| == |Users.GetAllUsers(users, departments)|
    ensures AccessToken(claims) ==>
      forall i :: 0 <= i < |Users.GetAllUsers(users, departments)| ==>
        Users.Joined(departments, Users.GetAllUsers(users, departments)[i])
        && r.body.dtos[i] == DtoOf(departments, Users.GetAllUsers(users, departments)[i])
  {
    if !AccessToken(claims) then BadAccessToken
    else Response(Ok, ManyUsers(Dtos(departments, Users.GetAllUsers(users, departments))))
  }

  /** `users.Select(x => new UserDTO { ... })` over joined users. */
  function Dtos(departments: map<Guid, string>, joined: seq<User>): (r: seq<UserDto>)
    requires forall u :: u in joined ==> Users.Joined(departments, u)
    ensures |r| == |joined|
    ensures forall i :: 0 <= i < |joined| ==> Users.Joined(departments, joined[i]) && r[i] == DtoOf(departments, joined[i])
  {
    assert forall i :: 0 <= i < |joined| ==> joined[i] in joined;
    seq(|joined|, i requires 0 <= i < |joined| => DtoOf(departments, joined[i]))
  }

  /** GetEmails: the e-mail of every row, joined or not. */
  function GetEmails(users: seq<User>, claims: seq<Claim>): (r: Response)
    ensures !AccessToken(claims) ==> r == BadAccessToken
    ensures AccessToken(claims) ==>
      r.status == Ok && r.body.Emails? && |r.body.emails| == |users|
      && forall j :: 0 <= j < |users| ==> r.body.emails[j] == users[j].email
  {
    if !AccessToken(claims) then BadAccessToken
    else Response(Ok, Emails(Users.GetAllUserEmails(users)))
  }

  /** GetUserById: any access token may read any user; no sid is parsed. */
  function GetUserById(users: seq<User>, departments: map<Guid, string>, claims: seq<Claim>, id: Guid): (r: Response)
    ensures !AccessToken(claims) ==> r == BadAccessToken
    ensures AccessToken(claims) && Users.GetUserById(users, departments, id).None? ==> r == UserNotFound
    ensures r.status == Ok ==>
      AccessToken(claims)
      && exists u :: u in users && u.id == id && Users.Joined(departments, u) && r.body == OneUser(DtoOf(departments, u))
    ensures AccessToken(claims) && Users.GetUserById(users, departments, id).Some? ==> r.status == Ok
  {
    if !AccessToken(claims) then BadAccessToken
    else
      match Users.GetUserById(users, departments, id)
      case None => UserNotFound
      case Some(user) => Response(Ok, OneUser(DtoOf(departments, user)))
  }

  // ---------------------------------------------------------------------------
  // PUT api/users/{id}

  /** UpdateUser's checks, in the source's order: the sid parses, the token
      is an access token, the target user exists, and it is the token's
      own user. */
  function UpdateUserGuard(users: seq<User>, departments: map<Guid, string>, claims: seq<Claim>, id: Guid): (r: Option<Response>)
    ensures SubjectId(claims).None? ==> r == Some(Error500)
    ensures SubjectId(claims).Some? && !AccessToken(claims) ==> r == Some(BadAccessToken)
    ensures r.None? <==> AccessToken(claims) && SubjectId(claims) == Some(id) && Users.GetUserById(users, departments, id).Some?
    ensures r.Some? ==> r.value in {Error500, BadAccessToken, UserNotFound, WrongUser}
  {
    match SubjectId(claims)
    case None => Some(Error500)
    case Some(tokenUserId) =>
      if !AccessToken(claims) then Some(BadAccessToken)
      else
        match Users.GetUserById(users, departments, id)
        case None => Some(UserNotFound)
        case Some(user) => if tokenUserId != user.id then Some(WrongUser) else None
  }

  /** The table UpdateUser leaves when it gets past its checks with a
      non-empty payload: the payload's fields, then, for a new e-mail, a
      fresh MFA setup (MFASetup runs on the updated table). */
  function UserUpdateOutcome(users: seq<User>, departments: map<Guid, string>, codec: Mfa.Codec, auth: Mfa.Authenticator,
                             id: Guid, payload: UserUpdate, first: Guid, second: Guid): seq<User>
  {
    var updated := Users.UserUpdated(users, id, payload);
    match payload.email
    case None => updated
    case Some(e) =>
      var m := Mfa.SetupModel(codec, auth, e, Mfa.ChosenSecret(updated, departments, codec, first, second));
      Users.WithMfaFields(updated, Mfa.ResetRequest(id, m))
  }

  /** UpdateUser. An all-null payload makes the repository's command a SQL
      syntax error, hence the 500. `first` and `second` are MFASetup's
      GUIDs. Once the checks pass both ExecuteCommand results are true, so
      neither "Could not update" answer is reached. */
  method UpdateUser(users: Users.UserRepo, codec: Mfa.Codec, auth: Mfa.Authenticator, claims: seq<Claim>,
                    id: Guid, payload: UserUpdate, first: Guid, second: Guid) returns (r: Response)
    modifies users
    ensures UpdateUserGuard(old(users.users), users.departments, claims, id).Some? ==>
      r == UpdateUserGuard(old(users.users), users.departments, claims, id).value && users.users == old(users.users)
    ensures UpdateUserGuard(old(users.users), users.departments, claims, id).None? && payload == UserUpdate(None, None, None) ==>
      r == Error500 && users.users == old(users.users)
    ensures UpdateUserGuard(old(users.users), users.departments, claims, id).None? && payload != UserUpdate(None, None, None) ==>
      r == Updated && users.users == UserUpdateOutcome(old(users.users), users.departments, codec, auth, id, payload, first, second)
  {
    var guard := UpdateUserGuard(users.users, users.departments, claims, id);
    if guard.Some? {
      return guard.value;
    }
    var user := Users.GetUserById(users.users, users.departments, id).value;
    ghost var j :| 0 <= j < |users.users| && users.users[j] == user;
    var isUpdated := users.UpdateUser(id, payload);
    if isUpdated.SqlError? {
      return Error500;
    }
    if !isUpdated.affected {
      return NotUpdated;
    }
    if payload.email.Some? {
      assert users.users[j].id == id;
      var mfa := Mfa.MfaSetup(users, codec, auth, payload.email.value, first, second);
      var updateMfa := Mfa.ResetRequest(user.id, mfa);
      var isMfaUpdated := users.UpdateMfaFields(updateMfa);
      if !isMfaUpdated {
        return MfaNotUpdated;
      }
    }
    r := Updated;
  }

  /** Changing the e-mail resets MFA: the user reads back with the new
      fields, first sign-in pending, MFA unverified and the new secret. */
  lemma {:induction false} EmailChangeResetsMfa(users: seq<User>, departments: map<Guid, string>, codec: Mfa.Codec, auth: Mfa.Authenticator,
                             id: Guid, payload: UserUpdate, first: Guid, second: Guid)
    requires payload.email.Some?
    ensures
      var after := UserUpdateOutcome(users, departments, codec, auth, id, payload, first, second);
      var updated := Users.UserUpdated(users, id, payload);
      var m := Mfa.SetupModel(codec, auth, payload.email.value, Mfa.ChosenSecret(updated, departments, codec, first, second));
      Users.GetUserById(after, departments, id) ==
        match Users.GetUserById(users, departments, id)
        case None => None
        case Some(u) => Some(u.(firstname := payload.firstname.UnwrapOr(u.firstname),
                                lastname := payload.lastname.UnwrapOr(u.lastname),
                                email := payload.email.value,
                                isFirstSignIn := true, isMfaVerified := false,
                                twoFaKey := Some(m.mfaKey), qrCode := Some(m.qrCodeUrl), manualCode := Some(m.manualEntryCode)))
  {
    var updated := Users.UserUpdated(users, id, payload);
    var m := Mfa.SetupModel(codec, auth, payload.email.value, Mfa.ChosenSecret(updated, departments, codec, first, second));
    Users.UpdateUserReadBack(users, departments, id, payload);
    Users.MfaFieldsReadBack(updated, departments, Mfa.ResetRequest(id, m));
  }

  // ---------------------------------------------------------------------------
  // PATCH api/users/update-by-admin/{id}

  /** UpdateByAdmin's checks: the role gate, then `payload.Role.ToLower()`
      (a null role throws: the 500), the role whitelist, then the user. */
  function AdminGuard(users: seq<User>, departments: map<Guid, string>, claims: seq<Claim>, id: Guid,
                      payload: UpdatesByAdmin): (r: Option<Response>)
    ensures !InAdminRole(claims) ==> r == Some(Forbid)
    ensures InAdminRole(claims) && payload.role.None? ==> r == Some(Error500)
    ensures r.None? <==>
      InAdminRole(claims) && payload.role.Some? && Text.ToLower(payload.role.value) in ValidRoles
      && Users.GetUserById(users, departments, id).Some?
    ensures r.Some? ==> r.value in {Forbid, Error500, NoSuchRole, UserNotFound}
  {
    if !InAdminRole(claims) then Some(Forbid)
    else if payload.role.None? then Some(Error500)
    else if Text.ToLower(payload.role.value) !in ValidRoles then Some(NoSuchRole)
    else if Users.GetUserById(users, departments, id).None? then Some(UserNotFound)
    else None
  }

  method UpdateByAdmin(users: Users.UserRepo, claims: seq<Claim>, id: Guid, payload: UpdatesByAdmin) returns (r: Response)
    modifies users
    ensures AdminGuard(old(users.users), users.departments, claims, id, payload).Some? ==>
      r == AdminGuard(old(users.users), users.departments, claims, id, payload).value && users.users == old(users.users)
    ensures AdminGuard(old(users.users), users.departments, claims, id, payload).None? ==>
      r == Updated && users.users == Users.AdminUpdated(old(users.users), id, payload)
  {
    var guard := AdminGuard(users.users, users.departments, claims, id, payload);
    if guard.Some? {
      return guard.value;
    }
    var user := Users.GetUserById(users.users, users.departments, id).value;
    ghost var j :| 0 <= j < |users.users| && users.users[j] == user;
    var isUpdated := users.UpdatesByAdmin(id, payload);
    if isUpdated.SqlError? {
      return Error500;
    }
    if !isUpdated.affected {
      return NotUpdated;
    }
    r := Updated;
  }

  /** Every role UpdateByAdmin writes is one of the three valid roles. */
  lemma {:induction false} AdminWritesValidRole(users: seq<User>, departments: map<Guid, string>, claims: seq<Claim>, id: Guid, payload: UpdatesByAdmin)
    requires AdminGuard(users, departments, claims, id, payload).None?
    ensures forall j :: 0 <= j < |users| && users[j].id == id ==> Users.AdminUpdated(users, id, payload)[j].role in ValidRoles
  {
  }

  // ---------------------------------------------------------------------------
  // Properties across endpoints

  /** Only access tokens carry a role claim: MFA and change-password tokens
      never pass the admin gate, and an access token passes it exactly for
      an admin. */
  lemma {:induction false} AdminGateNeedsAccessToken(cfg: Config, u: User, clock: Clock)
    ensures !InAdminRole(MfaDescriptor(cfg, u, clock).subject)
    ensures !InAdminRole(ChangePasswordDescriptor(cfg, u, clock).subject)
    ensures InAdminRole(AccessDescriptor(cfg, u, clock).subject) <==> u.role == "admin"
  {
    AdminRoleOfClaims(u, true, AccessPurpose);
    AdminRoleOfClaims(u, false, MfaPurpose);
    AdminRoleOfClaims(u, false, ChangePasswordPurpose);
  }

  lemma {:induction false} AdminRoleOfClaims(u: User, withRole: bool, purpose: string)
    ensures InAdminRole(ClaimList(u, withRole, purpose)) <==> withRole && u.role == "admin"
  {
    RoleClaimsOf(u, withRole, purpose);
    if withRole && u.role == "admin" {
      assert ClaimList(u, withRole, purpose)[2] == Claim(RoleClaim, "admin");
    }
  }

  /** MFA and change-password tokens cannot read users: the reading
      endpoints answer them with "Bad token". */
  lemma {:induction false} ReadingNeedsAccessToken(cfg: Config, u: User, clock: Clock, users: seq<User>, departments: map<Guid, string>, id: Guid)
    ensures GetCurrentUser(users, departments, MfaDescriptor(cfg, u, clock).subject) == BadAccessToken
    ensures GetCurrentUser(users, departments, ChangePasswordDescriptor(cfg, u, clock).subject) == BadAccessToken
    ensures GetAllUsers(users, departments, MfaDescriptor(cfg, u, clock).subject) == BadAccessToken
    ensures GetAllUsers(users, departments, ChangePasswordDescriptor(cfg, u, clock).subject) == BadAccessToken
    ensures GetUserById(users, departments, MfaDescriptor(cfg, u, clock).subject, id) == BadAccessToken
    ensures GetUserById(users, departments, ChangePasswordDescriptor(cfg, u, clock).subject, id) == BadAccessToken
  {
    assert MfaPurpose[0] != AccessPurpose[0] && ChangePasswordPurpose[0] != AccessPurpose[0];
  }

  /** An access token reads back its own user. */
  lemma {:induction false} CurrentUserIsTokenSubject(cfg: Config, u: User, clock: Clock, users: seq<User>, departments: map<Guid, string>)
    requires Users.GetUserById(users, departments, u.id) == Some(u)
    ensures GetCurrentUser(users, departments, AccessDescriptor(cfg, u, clock).subject) == Response(Ok, OneUser(DtoOf(departments, u)))
  {
  }

  /** An access token may update only its own user. */
  lemma {:induction false} UpdateOnlyOwnRecord(cfg: Config, u: User, clock: Clock, users: seq<User>, departments: map<Guid, string>, id: Guid)
    requires id != u.id
    ensures UpdateUserGuard(users, departments, AccessDescriptor(cfg, u, clock).subject, id).Some?
  {
  }
}
