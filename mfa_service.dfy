/** Services/MFAService.cs: the TOTP secret of a user. The secret is a
    dash-less GUID; the store holds it AES-encrypted and base64-encoded.
    The cipher and the authenticator library are oracles. */
module Mfa {
  import opened Wrappers
  import opened Models
  import opened Guids
  import Text
  import Base64
  import Users

  /** EncryptString and DecryptString. Both derive the same AES key and IV
      from fixed constants, so each is a fixed function of its input;
      DecryptString can throw on bytes that were not produced by
      EncryptString, which is None here. */
  datatype Codec = Codec(encrypt: string -> seq<Base64.byte>, decrypt: seq<Base64.byte> -> Option<string>)

  /** DecryptString undoes EncryptString: a hypothesis about the cipher,
      used where a lemma needs it. */
  ghost predicate Inverse(codec: Codec)
  {
    forall s :: codec.decrypt(codec.encrypt(s)) == Some(s)
  }

  /** The arguments of TwoFactorAuthenticator.GenerateSetupCode. */
  datatype SetupRequest = SetupRequest(issuer: string, accountTitle: string, secret: string, secretIsBase32: bool, qrPixelsPerModule: int)

  datatype SetupCode = SetupCode(qrCodeSetupImageUrl: string, manualEntryKey: string)

  /** GoogleAuthenticator's setup-code generation and PIN validation
      (RFC 6238). */
  datatype Authenticator = Authenticator(
    generateSetupCode: SetupRequest -> SetupCode,
    validatePin: (string, string) -> bool)

  const Issuer: string := "Complaint Box"

  /** The secret made from a fresh GUID: its 32 hex digits, lower case; the
      white-space removal has nothing to remove. */
  lemma {:induction false} SecretKeyShape(g: Guid)
    ensures Text.RemoveWhiteSpace(Text.RemoveDashes(Format(g))) == Hex(g)
    ensures |Hex(g)| == 32 && forall i :: 0 <= i < 32 ==> IsLowerHex(Hex(g)[i])
  {
    RemoveDashesOfFormat(g);
    assert forall i :: 0 <= i < |Hex(g)| ==> !Text.IsWhiteSpace(Hex(g)[i]);
  }

  /** The stored form of a secret: Convert.ToBase64String(EncryptString(k)). */
  function EncryptedKey(codec: Codec, k: string): string
  {
    Base64.Encode(codec.encrypt(k))
  }

  /** TwoFALogin's recovery of the secret from the stored twoFAKey:
      FromBase64String, then DecryptString. None where either throws,
      including a NULL twoFAKey. */
  function RecoverSecret(codec: Codec, stored: Option<string>): Option<string>
  {
    match stored
    case None => None
    case Some(text) =>
      match Base64.Decode(text)
      case None => None
      case Some(bytes) => codec.decrypt(bytes)
  }

  /** What MFASetup stores is what TwoFALogin recovers. */
  lemma {:induction false} RecoverStoredSecret(codec: Codec, k: string)
    requires Inverse(codec)
    ensures RecoverSecret(codec, Some(EncryptedKey(codec, k))) == Some(k)
  {
    Base64.DecodeEncode(codec.encrypt(k));
  }

  /** The uniqueness check of MFASetup: some joined user already stores the
      encrypted form of the secret made from `g`. */
  predicate KeyTaken(users: seq<User>, departments: map<Guid, string>, codec: Codec, g: Guid)
  {
    Users.GetUserByTwoFaKey(users, departments, EncryptedKey(codec, Hex(g))).Some?
  }

  /** The secret MFASetup settles on: the first GUID's, unless its
      encrypted form is taken, then the second GUID's, unchecked. */
  function ChosenSecret(users: seq<User>, departments: map<Guid, string>, codec: Codec, first: Guid, second: Guid): (k: string)
    ensures |k| == 32 && forall i :: 0 <= i < 32 ==> IsLowerHex(k[i])
    ensures !KeyTaken(users, departments, codec, first) ==> k == Hex(first)
    ensures KeyTaken(users, departments, codec, first) ==> k == Hex(second)
  {
    SecretKeyShape(first);
    SecretKeyShape(second);
    if KeyTaken(users, departments, codec, first) then Hex(second) else Hex(first)
  }

  /** What MFASetup returns for a secret: the authenticator's setup codes
      for issuer "Complaint Box" and the stored (encrypted) form of it. */
  function SetupModel(codec: Codec, auth: Authenticator, email: string, k: string): (m: MfaModel)
    ensures m.mfaKey == EncryptedKey(codec, k)
    ensures var setup := auth.generateSetupCode(SetupRequest(Issuer, email, k, false, 3));
      m.qrCodeUrl == setup.qrCodeSetupImageUrl && m.manualEntryCode == setup.manualEntryKey
  {
    var setup := auth.generateSetupCode(SetupRequest(Issuer, email, k, false, 3));
    MfaModel(setup.qrCodeSetupImageUrl, setup.manualEntryKey, EncryptedKey(codec, k))
  }

  /** The UpdateMfaFieldsModel both controllers build from MFASetup's
      result: the first sign-in is pending again and MFA is not verified. */
  function ResetRequest(userId: Guid, m: MfaModel): (request: UpdateMfaFieldsModel)
    ensures request.userId == userId && request.isFirstSignIn && !request.isMfaVerified
    ensures request.mfaKey == m.mfaKey && request.qrCodeUrl == m.qrCodeUrl && request.manualEntryCode == m.manualEntryCode
  {
    UpdateMfaFieldsModel(userId, true, false, m.qrCodeUrl, m.manualEntryCode, m.mfaKey)
  }

  /** MFASetup. `first` and `second` are the two Guid.NewGuid() values. The
      lookup is done once: on a hit the second secret is kept without being
      checked again. Nothing is written. */
  method MfaSetup(repo: Users.UserRepo, codec: Codec, auth: Authenticator, email: string, first: Guid, second: Guid)
    returns (m: MfaModel)
    ensures m == SetupModel(codec, auth, email, ChosenSecret(repo.users, repo.departments, codec, first, second))
  {
    var key := Text.RemoveDashes(Format(first));
    var regKey := Text.RemoveWhiteSpace(key);
    SecretKeyShape(first);
    var encryptedBytes := codec.encrypt(regKey);
    var encryptedText := Base64.Encode(encryptedBytes);
    var regKeyUnique := Users.GetUserByTwoFaKey(repo.users, repo.departments, encryptedText);
    if regKeyUnique.Some? {
      key := Text.RemoveDashes(Format(second));
      regKey := Text.RemoveWhiteSpace(key);
      SecretKeyShape(second);
      encryptedBytes := codec.encrypt(regKey);
      encryptedText := Base64.Encode(encryptedBytes);
    }
    var setupInfo := auth.generateSetupCode(SetupRequest(Issuer, email, regKey, false, 3));
    m := MfaModel(setupInfo.qrCodeSetupImageUrl, setupInfo.manualEntryKey, encryptedText);
  }
}
