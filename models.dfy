/** The records of Models/User.cs, Models/RefreshToken.cs, Models/MFAModel.cs,
    Models/Credentials.cs and Models/DTO/UserDTO.cs. Nullable reference
    fields are Options; times are whole seconds. */
module Models {
  import opened Wrappers
  import opened Guids

  type Time = int

  /** A row of the Users table. DepartmentName is not a column: queries
      that need it join Departments (see Users.UserRepo). */
  datatype User = User(
    id: Guid,
    firstname: string,
    lastname: string,
    email: string,
    password: string,
    role: string,
    isActive: bool,
    isFirstSignIn: bool,
    isMfaVerified: bool,
    twoFaKey: Option<string>,
    qrCode: Option<string>,
    manualCode: Option<string>,
    departmentId: Guid)

  /** A row of RefreshTokens; `id` is null until the store assigns one. */
  datatype RefreshToken = RefreshToken(id: Option<nat>, token: string, userId: Guid, expiresOn: Time)

  datatype RefreshTokenRequest = RefreshTokenRequest(email: string, refreshToken: string)

  datatype RegisterModel = RegisterModel(firstname: string, lastname: string, email: string, password: string, departmentId: Guid)

  datatype UserUpdate = UserUpdate(firstname: Option<string>, lastname: Option<string>, email: Option<string>)

  datatype UpdatesByAdmin = UpdatesByAdmin(role: Option<string>, isActive: Option<bool>, departmentId: Option<Guid>)

  datatype LoginModel = LoginModel(email: string, password: string)

  datatype ForgotPasswordRequest = ForgotPasswordRequest(email: Option<string>)

  datatype MfaModel = MfaModel(qrCodeUrl: string, manualEntryCode: string, mfaKey: string)

  datatype TwoFaLoginModel = TwoFaLoginModel(email: string, code: string)

  datatype UpdateMfaFieldsModel = UpdateMfaFieldsModel(
    userId: Guid,
    isFirstSignIn: bool,
    isMfaVerified: bool,
    qrCodeUrl: string,
    manualEntryCode: string,
    mfaKey: string)

  /** normalLoginCreds */
  datatype NormalLoginCreds = NormalLoginCreds(token: Option<string>, isFirstSignIn: bool, isMfaVerified: bool)

  /** The public view of a user: there is no field for the password, the
      MFA key, the QR code or the manual code. */
  datatype UserDto = UserDto(
    id: Guid,
    firstname: string,
    lastname: string,
    email: string,
    role: string,
    departmentName: string,
    isActive: bool)

  function ToDto(u: User, departmentName: string): UserDto
  {
    UserDto(u.id, u.firstname, u.lastname, u.email, u.role, departmentName, u.isActive)
  }

  /** Two users that differ only in password and MFA material have the same
      DTO: nothing secret reaches a response. */
  lemma {:induction false} DtoHidesSecrets(u: User, v: User, departmentName: string)
    requires u.(password := v.password, twoFaKey := v.twoFaKey, qrCode := v.qrCode, manualCode := v.manualCode) == v
    ensures ToDto(u, departmentName) == ToDto(v, departmentName)
  {
  }
}
