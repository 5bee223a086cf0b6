# ComplaintSystem credentials and sessions, modelled in Dafny

This project models the credential and session state machine of
ComplaintSystem, an ASP.NET Core complaint desk:

- the endpoints under `api/auth` (`AuthenticationController`): password
  login, MFA setup, MFA login, refresh, forgot password and change password;
- the access-token-guarded endpoints under `api/users` (`UserController`);
- the tokens `TokenService` mints;
- the refresh-session rotation in `TokenHelper.GenerateTokens`;
- the MFA secret set-up in `MFAService`;
- the two tables behind them: `UserRepo` and `RefreshTokenRepo`.

The model has these parts:

- **Stores.** The Users table is the class `Users.UserRepo`. It holds a
  sequence of rows and the Departments map its queries inner-join. The
  RefreshTokens table is the class `RefreshTokens.RefreshTokenRepo`. None of
  the queries has an ORDER BY, so the row a first-match query returns is up
  to the database. The model fixes that order as the insertion order of the
  rows. The queries are functions over the row sequence. Each write is a method whose
  `ensures` gives the new table as a function of the old one.
- **Requests.** A request's principal is its list of claims. A handler's
  checks are a pure function: `Option<Response>` or `Gate`, in the order the
  source runs them. Each handler that writes the tables is a method. It runs
  the checks, makes the same store calls the source makes, and states the
  reply and the new tables for every branch. A rejected request leaves every
  table as it was.
- **Tokens.** A token is its `SecurityTokenDescriptor`: claims, issue time,
  expiry, issuer, key and algorithm. The signed JWT (RFC 7519, HS256 as in
  section 3.2 of RFC 7518) is `Config.writeToken` applied to the descriptor.
  The refresh token is the base 64 encoding (section 4 of RFC 4648) of 64
  random bytes. The encoder and its decoder are modelled in full, together
  with the round trip.
- **Foreign calls.** These are parameters of the model:
  - the AES cipher (`Mfa.Codec`, whose inverse property is the hypothesis
    `Mfa.Inverse`);
  - the Google Authenticator (`Mfa.Authenticator`);
  - BCrypt verification, and the hashes it produces;
  - the password policy;
  - `Guid.NewGuid`, `RandomNumberGenerator` and the clock.

Some branches can never be taken, because the source compares a `bool` with
`null`. The methods show their effect: after the checks, a failed write never
aborts the handler. These branches are:

- `isAdded == null` in GenerateTokens;
- `mfaFieldUpdate == null` in TwoFASetup;
- `isUpdated == null` in TwoFALogin and ChangePassword.

## Model

| member | source | states |
|---|---|---|
| Models.DtoHidesSecrets | ComplaintSystem/Models/DTO/UserDTO.cs:1-16 | A UserDTO depends on no secret: two users that differ only in password, twoFAKey, QRCode and ManualCode give the same DTO |
| Text.ToLower | ComplaintSystem/Repositories/UserRepo.cs:56-57 | Lower-casing keeps the length and lower-cases each character (ASCII) |
| Text.RemoveDashes | ComplaintSystem/Services/MFAService.cs:30 | The result has no dash, a string without dashes is returned unchanged, and a single character is dropped exactly when it is a dash |
| Text.RemoveDashesAppend | ComplaintSystem/Services/MFAService.cs:30 | Removing dashes distributes over concatenation, so with the one-character case every other character is kept, in order |
| Text.RemoveWhiteSpace | ComplaintSystem/Services/MFAService.cs:33 | The result has no white space, a string without white space is returned unchanged, and a single character is dropped exactly when it is white space |
| Text.RemoveWhiteSpaceAppend | ComplaintSystem/Services/MFAService.cs:33 | Removing white space distributes over concatenation, so with the one-character case every other character is kept, in order |
| Text.DropSuffix | ComplaintSystem/Repositories/UserRepo.cs:241-244 | Cutting a trailing ", ": when the suffix is present, putting it back gives the input; otherwise the input is unchanged |
| Guids.ParseFormat | ComplaintSystem/Controllers/UserController.cs:37 | Guid.Parse of a GUID's ToString() gives back that GUID, so the sid claim a token carries parses to the user's id |
| Guids.ParseHexOfHex | ComplaintSystem/Controllers/UserController.cs:37 | Hex digits parse back to the nibbles they print |
| Guids.RemoveDashesOfFormat | ComplaintSystem/Services/MFAService.cs:30 | Removing the dashes from a GUID's "D" form leaves its 32 hex digits |
| Base64.DecodeEncode | ComplaintSystem/Controllers/AuthenticationController.cs:175 | FromBase64String undoes ToBase64String for every byte string |
| Base64.EncodeLength | ComplaintSystem/Services/TokenService.cs:156 | The encoding of n bytes has 4 * ceil(n / 3) characters |
| Base64.EncodePadding | ComplaintSystem/Services/TokenService.cs:156 | When n mod 3 = 1, the encoding ends in "==" |
| Base64.EncodeDigits | ComplaintSystem/Services/TokenService.cs:156 | Every character except the padding is from the base 64 alphabet |
| Base64.GroupRoundTrip | ComplaintSystem/Services/TokenService.cs:156 | One group of three bytes decodes back from its four characters |
| Base64.FinalRoundTrip | ComplaintSystem/Services/TokenService.cs:156 | A padded final group of one or two bytes decodes back |
| TokenService.ClaimList | ComplaintSystem/Services/TokenService.cs:79-85 | Each token's claims yield the user's e-mail, a sid that parses to the user's id, the token's purpose, and a role only for an access token |
| TokenService.RoleClaimsOf | ComplaintSystem/Services/TokenService.cs:79-85 | The only role claim any token holds is the user's role, and only an access token holds one |
| TokenService.ChangePasswordDescriptor | ComplaintSystem/Services/TokenService.cs:39-53 | A change-password token: purpose "change-password-token", e-mail and sid, no role, expiry now + 1 hour, signed with Jwt:Key under HS256, issuer Jwt:Issuer |
| TokenService.AccessDescriptor | ComplaintSystem/Services/TokenService.cs:76-94 | An access token: purpose "access-token", e-mail, sid and role, issued at UtcNow, expiry now + 1 hour, same key, algorithm and issuer |
| TokenService.MfaDescriptor | ComplaintSystem/Services/TokenService.cs:122-136 | An MFA token: purpose "mfa-token", e-mail and sid, no role, expiry now + 20 minutes on a first sign-in and now + 10 minutes otherwise, same key, algorithm and issuer |
| TokenService.GenerateChangePasswordToken | ComplaintSystem/Services/TokenService.cs:29-65 | Null exactly for a null user |
| TokenService.GenerateMfaToken | ComplaintSystem/Services/TokenService.cs:112-148 | Null exactly for a null user |
| TokenService.GenerateRefreshToken | ComplaintSystem/Services/TokenService.cs:152-163 | 88 characters from the base 64 alphabet, ending in "==" |
| RefreshTokens.Without | ComplaintSystem/Repositories/RefreshTokenRepo.cs:61-66 | The rows left by DELETE ... WHERE Id = @id are the old rows whose id differs; a null id matches no row |
| RefreshTokens.WithoutRemovesOne | ComplaintSystem/Repositories/RefreshTokenRepo.cs:61-66 | When ids are distinct, deleting a stored id removes that one row and keeps the others in order |
| RefreshTokens.WithoutAbsent | ComplaintSystem/Repositories/RefreshTokenRepo.cs:61-66 | Deleting an id that no row has leaves the table unchanged |
| RefreshTokens.DistinctAfterFilter | ComplaintSystem/Repositories/RefreshTokenRepo.cs:57-76 | A delete keeps row ids distinct |
| RefreshTokens.Stored | ComplaintSystem/Repositories/RefreshTokenRepo.cs:38-46 | An inserted row holds exactly the payload's Token, UserId and ExpiresOn, and the id the store assigns |
| RefreshTokens.GetRefreshTokenByUserId | ComplaintSystem/Repositories/RefreshTokenRepo.cs:78-98 | A stored row with that UserId, or null exactly when there is none |
| RefreshTokens.GetRefreshTokenByRefreshToken | ComplaintSystem/Repositories/RefreshTokenRepo.cs:100-120 | A stored row with that Token, whatever its expiry, or null exactly when there is none |
| RefreshTokens.RefreshTokenRepo.AddRefreshToken | ComplaintSystem/Repositories/RefreshTokenRepo.cs:34-55 | Appends the stored row under a new id, keeps ids distinct, returns true |
| RefreshTokens.RefreshTokenRepo.DeleteRefreshToken | ComplaintSystem/Repositories/RefreshTokenRepo.cs:57-76 | Removes the rows with that id and nothing else; returns true iff some row had it |
| TokenHelper.GenerateTokens | ComplaintSystem/Services/TokenHelper.cs:23-63 | Three outcomes. (1) An empty access token gives (null, null) and the table is untouched. (2) A failed INSERT gives (null, null) after the user's old session is already deleted. (3) Otherwise the minted pair is returned and the table is rotated: the user's first row is deleted and a row with the new token, the user's id and expiry now + 7 days is appended. |
| TokenHelper.AfterDeleteRemovesFirstOnly | ComplaintSystem/Services/TokenHelper.cs:35-40 | The delete step removes exactly the user's first session row and nothing else |
| TokenHelper.AfterDeleteIsFilter | ComplaintSystem/Services/TokenHelper.cs:35-40 | When the user has at most one row (other users may have several), the delete step removes every row of that user and keeps all other rows in order |
| TokenHelper.AfterDeleteKeepsOthers | ComplaintSystem/Services/TokenHelper.cs:35-40 | The delete step leaves every other user's rows and first-match lookup as they were, whatever the table holds |
| TokenHelper.RotateKeepsInvariant | ComplaintSystem/Services/TokenHelper.cs:35-49 | Rotation keeps ids distinct and keeps at most one session row per user |
| TokenHelper.RotateSession | ComplaintSystem/Services/TokenHelper.cs:35-49 | If the table held at most one row of the user, then after a rotation the user's only row is the new one, carrying the new token and expiry; other users may hold any number of rows |
| TokenHelper.RotateFindsNewToken | ComplaintSystem/Services/TokenHelper.cs:42-49 | After a rotation with a token no row already holds, the new token is found by the lookup on Token |
| TokenHelper.RotateOthers | ComplaintSystem/Services/TokenHelper.cs:35-49 | Other users' rows and their first-match lookup are unchanged by a rotation, for any table with distinct row ids |
| TokenHelper.RotateRevokes | ComplaintSystem/Services/TokenHelper.cs:35-49 | If the table held at most one row of the user, then after a rotation no row of the user holds a token other than the new one |
| Users.GetUserByEmail | ComplaintSystem/Repositories/UserRepo.cs:187-211 | A joined user with that e-mail, or null exactly when there is none |
| Users.GetUserById | ComplaintSystem/Repositories/UserRepo.cs:130-156 | A joined user with that id, or null exactly when there is none |
| Users.GetUserByTwoFaKey | ComplaintSystem/Repositories/UserRepo.cs:158-185 | A joined user storing that twoFAKey, or null exactly when there is none |
| Users.GetAllUsers | ComplaintSystem/Repositories/UserRepo.cs:106-128 | Exactly the users with a department |
| Users.GetAllUserEmails | ComplaintSystem/Repositories/UserRepo.cs:418-436 | The e-mail of every row, in order |
| Users.Login | ComplaintSystem/Repositories/UserRepo.cs:312-345 | Null for an unknown or inactive e-mail whatever the password, and null when BCrypt rejects it; otherwise the stored active row whose hash verifies |
| Users.Inserted | ComplaintSystem/Repositories/UserRepo.cs:54-62 | The inserted row stores Email and Role lower-cased and every other field verbatim, with no MFA secret |
| Users.WithMfaFields | ComplaintSystem/Repositories/UserRepo.cs:265-274 | Sets exactly isFirstSignIn, isMFA_verified, twoFAKey, QRCode and manualCode on the rows with that id; other rows unchanged |
| Users.WithFirstSignInDone | ComplaintSystem/Repositories/UserRepo.cs:293-298 | Sets isFirstSignIn false and isMFA_verified true on the rows with that e-mail; nothing else changes |
| Users.WithPassword | ComplaintSystem/Repositories/UserRepo.cs:355-358 | Replaces only Password, on the rows with that e-mail |
| Users.UpdateCommand | ComplaintSystem/Repositories/UserRepo.cs:220-246 | The UPDATE text for no clauses is "UPDATE Users SET  WHERE Id = @id"; for non-empty clauses it is something else |
| Users.JoinEmpty | ComplaintSystem/Repositories/UserRepo.cs:220-246 | Joining non-empty clauses is empty only when there are no clauses |
| Users.TrimTerminated | ComplaintSystem/Repositories/UserRepo.cs:241-246 | Cutting the last ", " from the clauses, each followed by ", ", gives the clauses joined by ", " with no trailing comma |
| Users.BuildUpdateUserCommand | ComplaintSystem/Repositories/UserRepo.cs:217-246 | Grows the command by the Firstname, Lastname and Email clauses that are non-null, in that order, and binds exactly those parameters and @id |
| Users.BuildUpdatesByAdminCommand | ComplaintSystem/Repositories/UserRepo.cs:375-404 | The same shape for DepartmentId, isActive and Role |
| Users.BuildSetCommand | ComplaintSystem/Repositories/UserRepo.cs:217-246 | Three optional SET clauses, appended in order, give the trimmed command and the bound parameters |
| Users.AppendIfSet | ComplaintSystem/Repositories/UserRepo.cs:222-238 | One `if (x != null)` step: appends the clause and its parameter only when the field is set |
| Users.UserParametersBind | ComplaintSystem/Repositories/UserRepo.cs:217-238 | @id, @firstname, @lastname and @email are bound to the payload's values exactly when those values are set |
| Users.AdminParametersBind | ComplaintSystem/Repositories/UserRepo.cs:375-394 | @departmentId, @isActive and @role (lower-cased) are bound exactly when set |
| Users.LookupFour | ComplaintSystem/Repositories/UserRepo.cs:217-238 | In a parameter list built by optional binds, each name resolves to its value exactly when it was bound |
| Users.UserCommandEmpty | ComplaintSystem/Repositories/UserRepo.cs:220-246 | UpdateUser issues the malformed "SET  WHERE" command exactly for an all-null payload |
| Users.AdminCommandEmpty | ComplaintSystem/Repositories/UserRepo.cs:375-404 | UpdatesByAdmin issues the malformed command exactly for an all-null payload |
| Users.UserUpdated | ComplaintSystem/Repositories/UserRepo.cs:213-256 | Executing UpdateUser's command changes only the target row, and only the columns set in the payload |
| Users.AdminUpdated | ComplaintSystem/Repositories/UserRepo.cs:371-413 | Executing UpdatesByAdmin's command changes only the target row's DepartmentId, isActive and lower-cased Role, as set |
| Users.UserAssignments | ComplaintSystem/Repositories/UserRepo.cs:213-256 | Applying the built command and parameters to the table gives UserUpdated |
| Users.AdminAssignments | ComplaintSystem/Repositories/UserRepo.cs:371-413 | Applying the built command and parameters to the table gives AdminUpdated |
| Users.UserRepo.AddUser | ComplaintSystem/Repositories/UserRepo.cs:49-77 | Appends the inserted row and returns true |
| Users.UserRepo.UpdateUser | ComplaintSystem/Repositories/UserRepo.cs:213-256 | A SQL error for an all-null payload, with nothing changed; otherwise the table becomes UserUpdated and the result says whether a row matched |
| Users.UserRepo.UpdatesByAdmin | ComplaintSystem/Repositories/UserRepo.cs:371-413 | A SQL error for an all-null payload, with nothing changed; otherwise the table becomes AdminUpdated and the result says whether a row matched |
| Users.UserRepo.UpdateMfaFields | ComplaintSystem/Repositories/UserRepo.cs:260-286 | The table becomes WithMfaFields; true iff a row has the id |
| Users.UserRepo.UpdateFirstSignIn | ComplaintSystem/Repositories/UserRepo.cs:288-310 | The table becomes WithFirstSignInDone; true iff a row has the e-mail |
| Users.UserRepo.UpdatePassword | ComplaintSystem/Repositories/UserRepo.cs:349-367 | The table becomes WithPassword; true iff a row has the e-mail |
| Users.AddUserThenGetByEmail | ComplaintSystem/Repositories/UserRepo.cs:49-77 | After AddUser, a lookup by the lower-cased e-mail finds exactly the inserted row, when its department exists and no earlier joined user has that e-mail |
| Users.MfaFieldsReadBack | ComplaintSystem/Repositories/UserRepo.cs:260-286 | After UpdateMFAfields, GetUserById returns the user with the five new field values |
| Users.MfaFieldsEmailLookup | ComplaintSystem/Repositories/UserRepo.cs:260-286 | UpdateMFAfields does not change which user an e-mail lookup finds, only that user's MFA fields |
| Users.FirstSignInReadBack | ComplaintSystem/Repositories/UserRepo.cs:288-310 | After updateFirstSignIn, the e-mail lookup shows first sign-in done and MFA verified |
| Users.PasswordThenLogin | ComplaintSystem/Repositories/UserRepo.cs:312-367 | After updatePassword, Login for that e-mail accepts exactly when the first such row is active and the password verifies against the new hash, and returns that row with the new hash |
| Users.UpdateUserReadBack | ComplaintSystem/Repositories/UserRepo.cs:213-256 | After UpdateUser, GetUserById returns the user with the set fields replaced |
| Mfa.SecretKeyShape | ComplaintSystem/Services/MFAService.cs:30-33 | The secret is the GUID's 32 lower-case hex digits; the white-space removal leaves it unchanged |
| Mfa.RecoverStoredSecret | ComplaintSystem/Services/MFAService.cs:36-37 | When DecryptString inverts EncryptString, TwoFALogin's decode and decrypt of the stored key gives back the secret |
| Mfa.ChosenSecret | ComplaintSystem/Services/MFAService.cs:30-48 | The first GUID's secret unless its encrypted form is already stored, in which case the second one's, which is not checked again; always 32 lower-case hex digits |
| Mfa.SetupModel | ComplaintSystem/Services/MFAService.cs:50-59 | MFAKey is base64(EncryptString(k)), and the codes are the authenticator's for issuer "Complaint Box", the e-mail and that same k |
| Mfa.ResetRequest | ComplaintSystem/Controllers/AuthenticationController.cs:118-127 | The MFA fields written after a setup: first sign-in pending, MFA unverified, the new key and codes |
| Mfa.MfaSetup | ComplaintSystem/Services/MFAService.cs:25-71 | Runs the single-retry key choice with one uniqueness lookup, and returns SetupModel of the chosen secret |
| Authentication.NormalLogin | ComplaintSystem/Controllers/AuthenticationController.cs:56-84 | Unauthorized exactly when Login yields no user; otherwise an MFA token for that user and its stored isFirstSignIn and isMFAVerified flags |
| Authentication.SetupGuard | ComplaintSystem/Controllers/AuthenticationController.cs:97-105 | An empty e-mail gives BadRequest. Otherwise the request is rejected unless it holds an MFA token whose e-mail claim equals the lower-cased e-mail |
| Authentication.TwoFaSetup | ComplaintSystem/Controllers/AuthenticationController.cs:90-151 | The checks in order (e-mail, token, user), each leaving the table unchanged. On success the user's MFA fields are reset with the chosen secret's key and codes, and those codes are returned |
| Authentication.TwoFaLoginGuard | ComplaintSystem/Controllers/AuthenticationController.cs:163-184 | Admits only an MFA token whose e-mail claim equals the request's e-mail exactly (no lower-casing), for a stored user whose decrypted secret accepts the PIN. A bad token, a missing user, an undecodable key and a wrong PIN each have their own rejection |
| Authentication.TwoFaLogin | ComplaintSystem/Controllers/AuthenticationController.cs:156-210 | A rejection changes neither table. Otherwise the first sign-in is completed only when isFirstSignIn and not isMFAVerified, and GenerateTokens' outcome is returned |
| Authentication.IssueTokens | ComplaintSystem/Controllers/AuthenticationController.cs:192-203 | The token pair when both tokens are non-empty; otherwise "Could not generate tokens", with the session table that GenerateTokens leaves |
| Authentication.IssuedReply | ComplaintSystem/Controllers/AuthenticationController.cs:198-203 | The null-or-empty test maps each GenerateTokens outcome to the reply and tables TokensIssued describes |
| Authentication.RefreshAccessToken | ComplaintSystem/Controllers/AuthenticationController.cs:216-251 | NotFound exactly for an unknown e-mail, whatever the token. Unauthorized for a known user whose token is missing, expired or another user's. Success only for a stored, unexpired token of that user, and then only a fresh access token is returned. The table is never changed |
| Authentication.PasswordMail | ComplaintSystem/Controllers/AuthenticationController.cs:274-290 | The e-mail goes to the user and carries a link embedding a change-password token for that user and the user's e-mail |
| Authentication.ForgotPassword | ComplaintSystem/Controllers/AuthenticationController.cs:258-298 | An empty e-mail gives BadRequest and an unknown one NotFound. Otherwise a mail with a change-password link is sent to exactly that user, and a mail is sent exactly when the reply is "Email sent" |
| Authentication.ChangePasswordGuard | ComplaintSystem/Controllers/AuthenticationController.cs:307-335 | The checks in the source's order: sid parses, password policy, user exists, purpose is "change-password-token", sid is the user's id. Each failure has its own answer, and all passing admits that user |
| Authentication.ChangePassword | ComplaintSystem/Controllers/AuthenticationController.cs:303-364 | The password is updated, and the confirmation mailed, only when all checks pass; a rejection leaves the table unchanged |
| Authentication.ChangedPasswordLogsIn | ComplaintSystem/Controllers/AuthenticationController.cs:303-335 | After an admitted ChangePassword whose stored hash verifies the new password, Login under the e-mail returns a row of that e-mail with the new hash. When the user is the only row with that e-mail, Login returns that user exactly when it is active |
| Authentication.OnlyMfaTokensReachMfaEndpoints | ComplaintSystem/Controllers/AuthenticationController.cs:102-184 | Access and change-password tokens are refused by MFA setup and MFA login |
| Authentication.PurposesDiffer | ComplaintSystem/Services/TokenService.cs:41-129 | The three purpose strings are distinct |
| Authentication.OnlyChangePasswordTokensChangePasswords | ComplaintSystem/Controllers/AuthenticationController.cs:327-330 | MFA and access tokens cannot change a password |
| Authentication.SetupThenLogin | ComplaintSystem/Controllers/AuthenticationController.cs:156-184 | After MFA setup, the user's MFA token and a PIN valid for the new secret pass MFA login |
| Authentication.LoginBeforeSetupFails | ComplaintSystem/Controllers/AuthenticationController.cs:175-176 | A user with no stored twoFAKey cannot complete MFA login: decoding the null key is the 500 |
| Authentication.MailedTokenChangesPassword | ComplaintSystem/Controllers/AuthenticationController.cs:274-335 | The token ForgotPassword mails passes ChangePassword's checks for that user with a policy-conforming password |
| Authentication.RefreshAfterRotation | ComplaintSystem/Controllers/AuthenticationController.cs:216-251 | A refresh token issued by a rotation, for a token no row already holds, is accepted while unexpired |
| Authentication.RotationRevokesOldToken | ComplaintSystem/Controllers/AuthenticationController.cs:216-251 | After a rotation of a user who held at most one session row, the user's earlier refresh token is refused |
| UserEndpoints.DtoOf | ComplaintSystem/Controllers/UserController.cs:51-60 | The DTO carries the user's id, names, e-mail, role, activity and department name |
| UserEndpoints.GetCurrentUser | ComplaintSystem/Controllers/UserController.cs:32-70 | 500 when the sid does not parse, Unauthorized for a non-access token; otherwise the DTO of the user the sid names, or NotFound |
| UserEndpoints.NewUser | ComplaintSystem/Controllers/UserController.cs:90-101 | A registered user is active with role "user", first sign-in pending, MFA unverified and the hashed password |
| UserEndpoints.Register | ComplaintSystem/Controllers/UserController.cs:73-118 | Conflict for an existing e-mail, checked before the department; NotFound for a missing department; otherwise the new user is inserted |
| UserEndpoints.RegisteredUserFound | ComplaintSystem/Controllers/UserController.cs:73-118 | A registered user, whatever the case of its e-mail, is found under the lower-cased e-mail with the new id, the hash and the Register defaults, unless a joined user already holds that lower-cased e-mail |
| UserEndpoints.GetAllUsers | ComplaintSystem/Controllers/UserController.cs:122-154 | Unauthorized for a non-access token; otherwise the DTO of every joined user, in order |
| UserEndpoints.Dtos | ComplaintSystem/Controllers/UserController.cs:135-144 | One DTO per user, in order |
| UserEndpoints.GetEmails | ComplaintSystem/Controllers/UserController.cs:158-179 | Unauthorized for a non-access token; otherwise every row's e-mail |
| UserEndpoints.GetUserById | ComplaintSystem/Controllers/UserController.cs:183-220 | Unauthorized for a non-access token; otherwise that user's DTO, or NotFound |
| UserEndpoints.UpdateUserGuard | ComplaintSystem/Controllers/UserController.cs:232-250 | Passes exactly for an access token whose sid is the id of an existing target user |
| UserEndpoints.UpdateUser | ComplaintSystem/Controllers/UserController.cs:224-289 | A rejection or an all-null payload leaves the table unchanged. Otherwise the set fields are written, and a new e-mail also re-runs MFA setup and resets the MFA fields |
| UserEndpoints.EmailChangeResetsMfa | ComplaintSystem/Controllers/UserController.cs:259-279 | After an e-mail change the user reads back with the new fields, first sign-in pending, MFA unverified and the new secret |
| UserEndpoints.AdminGuard | ComplaintSystem/Controllers/UserController.cs:320-340 | Forbidden without the admin role; a null role is the 500; the role must be "manager", "user" or "admin" after lower-casing, checked before the user lookup |
| UserEndpoints.UpdateByAdmin | ComplaintSystem/Controllers/UserController.cs:320-354 | A rejection leaves the table unchanged; otherwise the admin update is applied |
| UserEndpoints.AdminWritesValidRole | ComplaintSystem/Controllers/UserController.cs:326-331 | Every role UpdateByAdmin writes is one of the three valid roles |
| UserEndpoints.AdminGateNeedsAccessToken | ComplaintSystem/Controllers/UserController.cs:320 | MFA and change-password tokens never pass the admin gate, and an access token passes it exactly for an admin |
| UserEndpoints.AdminRoleOfClaims | ComplaintSystem/Services/TokenService.cs:79-85 | A claim list is in the admin role exactly when it carries a role and the user is an admin |
| UserEndpoints.ReadingNeedsAccessToken | ComplaintSystem/Controllers/UserController.cs:39-42 | MFA and change-password tokens cannot read users |
| UserEndpoints.CurrentUserIsTokenSubject | ComplaintSystem/Controllers/UserController.cs:32-70 | An access token reads back its own user |
| UserEndpoints.UpdateOnlyOwnRecord | ComplaintSystem/Controllers/UserController.cs:247-250 | An access token cannot update another user |

## Left out

- JWT serialisation, signing and the middleware's signature, issuer and lifetime validation: a token is its descriptor, and a request's principal is its claims.
- EncryptString and DecryptString (AES with an Rfc2898 key, MFAService.cs:77-141): the deterministic oracle `Mfa.Codec`. That decryption inverts encryption is the hypothesis `Mfa.Inverse`, taken as a precondition.
- TOTP set-up codes and PIN validation: the oracle `Mfa.Authenticator`.
- BCrypt hashing and verification: the hash is a parameter and verification an arrow `(string, string) -> bool`.
- PasswordHelper.IsPasswordValid is not part of this model. It is a predicate parameter.
- Guid.NewGuid, RandomNumberGenerator and DateTime.Now/UtcNow: parameters (`first`/`second`, `RandomBytes`, `Clock`).
- SQL string comparison: e-mail equality is exact. The database collation, possibly case-insensitive, is not modelled.
- Text.ToLower: lower-cases ASCII letters only, not the full culture-sensitive Unicode mapping.
- Guids.Parse: accepts only the 36-character "D" form that Guid.ToString produces, not the other forms Guid.Parse accepts.
- Base64.Decode: rejects white space inside the text, which FromBase64String skips.
- Store faults: only the failing INSERT inside GenerateTokens is modelled. Other ExecuteCommand or query exceptions, and the 500s they would cause, are not.
- Concurrency and async: every handler runs alone, so the race between two logins of one user in GenerateTokens is not modelled.
- Logging, SMTP delivery and the e-mail template files: a sent e-mail is the value `Mail` (recipient, subject, name, link).
- DeleteUser (UserRepo.cs:83-104, UserController.cs:293-318): not part of the credential and session core.
- Row order: queries without ORDER BY (RefreshTokenRepo's lookups, UserRepo's Login and the joined user queries) return whichever matching row the database yields first. The model fixes this as insertion order. So "the user's first row" (GenerateTokens, AfterDeleteRemovesFirstOnly) and "the first such row" (Login, PasswordThenLogin) are a choice of the model, not a promise of the source.
- Refresh-token row ids: natural numbers from a store counter, standing in for the database-assigned ids.
- Framework attributes: only `[Authorize(Roles = "admin")]` on UpdateByAdmin is modelled, as `InAdminRole`. The plain `[Authorize]` of the other endpoints is covered by the principal being well formed.
- Nullable booleans of the models are plain `bool`.
- JSON property names of response bodies: a body is a tagged value.
- Column mapping: users are read back with isMFA_verified as stored. Neither Program.cs nor DapperContext.cs sets Dapper's `MatchNamesWithUnderscores`, so the running code never fills `User.isMFAVerified` from the column `isMFA_verified` that the user queries select. As a result the running NormalLogin always reports `isMFA_verified = false` (AuthenticationController.cs:74), and TwoFALogin's `isMFAVerified == false` test always holds. Authentication.NormalLogin and Authentication.TwoFaLogin use the stored flag instead.
- Unreachable branches: `== null` tests on `bool` results never hold, so the answers behind them are never produced: GenerateTokens' (null, null) after a false INSERT result, "Could set up MFA", "Could not update mfa fields" and "Could not change password".
- Users.UpdateCommand: treats the all-null command only as a SQL error (`Exec.SqlError`). The text of the database's error message is not modelled.
