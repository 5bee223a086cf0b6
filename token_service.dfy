/** Services/TokenService.cs: the three claim-bearing JWTs (RFC 7519, signed
    with HMAC-SHA256 as in section 3.2 of RFC 7518) and the opaque refresh
    token. The signed, serialised form of a token is the writer oracle
    `Config.writeToken` applied to its descriptor. */
module TokenService {
  import opened Wrappers
  import opened Models
  import Guids
  import Base64
  import Seqs

  const Minute: int := 60
  const Hour: int := 3600
  const Day: int := 86400

  const MfaPurpose: string := "mfa-token"
  const AccessPurpose: string := "access-token"
  const ChangePasswordPurpose: string := "change-password-token"

  datatype ClaimType = EmailClaim | SidClaim | RoleClaim | TokenTypeClaim

  datatype Claim = Claim(kind: ClaimType, value: string)

  datatype Algorithm = HmacSha256

  /** SecurityTokenDescriptor */
  datatype Descriptor = Descriptor(
    subject: seq<Claim>,
    issuedAt: Option<Time>,
    expires: Time,
    issuer: string,
    signingKey: string,
    algorithm: Algorithm)

  /** Jwt:Key, Jwt:Issuer, FrontEndBaseUrl, and JwtSecurityTokenHandler's
      CreateToken + WriteToken. */
  datatype Config = Config(jwtKey: string, jwtIssuer: string, frontEndBaseUrl: string, writeToken: Descriptor -> string)

  /** DateTime.Now and DateTime.UtcNow. */
  datatype Clock = Clock(local: Time, utc: Time)

  /** The 64 bytes of RandomNumberGenerator.GetBytes(64). */
  type RandomBytes = b: seq<Base64.byte> | |b| == 64 witness seq(64, _ => 0)

  /** FindFirstValue(type), or FirstOrDefault(c => c.Type == type)?.Value. */
  function ClaimValue(claims: seq<Claim>, kind: ClaimType): Option<string>
  {
    match Seqs.FirstWhere(claims, (c: Claim) => c.kind == kind)
    case None => None
    case Some(c) => Some(c.value)
  }

  function Purpose(claims: seq<Claim>): Option<string>
  {
    ClaimValue(claims, TokenTypeClaim)
  }

  /** The subject id of a principal, as Guid.Parse(FindFirstValue(Sid)!)
      sees it: None where Parse throws (no sid claim, or not a GUID). */
  function SubjectId(claims: seq<Claim>): Option<Guids.Guid>
  {
    match ClaimValue(claims, SidClaim)
    case None => None
    case Some(s) => Guids.Parse(s)
  }

  /** The value of the first claim of a kind is found at its first position. */
  lemma {:induction false} ClaimValueAt(claims: seq<Claim>, kind: ClaimType, i: nat)
    requires i < |claims| && claims[i].kind == kind
    requires forall j :: 0 <= j < i ==> claims[j].kind != kind
    ensures ClaimValue(claims, kind) == Some(claims[i].value)
  {
    var r := Seqs.FirstWhere(claims, (c: Claim) => c.kind == kind);
    assert claims[i] in claims;
    var k :| 0 <= k < |claims| && claims[k] == r.value && forall j :: 0 <= j < k ==> claims[j].kind != kind;
    assert k == i;
  }

  lemma {:induction false} ClaimValueAbsent(claims: seq<Claim>, kind: ClaimType)
    requires forall j :: 0 <= j < |claims| ==> claims[j].kind != kind
    ensures ClaimValue(claims, kind) == None
  {
  }

  /** Email, Sid, an optional Role, then TokenType, in that order. */
  function TokenClaims(email: string, sid: string, role: Option<string>, purpose: string): (claims: seq<Claim>)
    ensures |claims| == if role.Some? then 4 else 3
    ensures claims[0] == Claim(EmailClaim, email) && claims[1] == Claim(SidClaim, sid)
    ensures claims[|claims| - 1] == Claim(TokenTypeClaim, purpose)
    ensures role.Some? ==> claims[2] == Claim(RoleClaim, role.value)
  {
    [Claim(EmailClaim, email), Claim(SidClaim, sid)]
    + (if role.Some? then [Claim(RoleClaim, role.value)] else [])
    + [Claim(TokenTypeClaim, purpose)]
  }

  /** The claim list each Generate* method builds: the user's e-mail and
      id, its role for an access token, and the token's purpose. */
  function ClaimList(u: User, withRole: bool, purpose: string): (claims: seq<Claim>)
    ensures ClaimValue(claims, EmailClaim) == Some(u.email)
    ensures SubjectId(claims) == Some(u.id)
    ensures ClaimValue(claims, RoleClaim) == if withRole then Some(u.role) else None
    ensures Purpose(claims) == Some(purpose)
  {
    var claims := TokenClaims(u.email, Guids.Format(u.id), if withRole then Some(u.role) else None, purpose);
    ClaimValueAt(claims, EmailClaim, 0);
    ClaimValueAt(claims, SidClaim, 1);
    ClaimValueAt(claims, TokenTypeClaim, |claims| - 1);
    RoleLookup(claims, withRole, u.role);
    Guids.ParseFormat(u.id);
    claims
  }

  /** The only role claim a token can carry is the user's role, at index
      2 of an access token's claims. */
  lemma {:induction false} RoleClaimsOf(u: User, withRole: bool, purpose: string)
    ensures forall i :: 0 <= i < |ClaimList(u, withRole, purpose)| && ClaimList(u, withRole, purpose)[i].kind == RoleClaim ==>
      withRole && i == 2 && ClaimList(u, withRole, purpose)[i].value == u.role
    ensures withRole ==> |ClaimList(u, withRole, purpose)| == 4 && ClaimList(u, withRole, purpose)[2] == Claim(RoleClaim, u.role)
  {
    var claims := ClaimList(u, withRole, purpose);
    assert claims == TokenClaims(u.email, Guids.Format(u.id), if withRole then Some(u.role) else None, purpose);
    forall i | 0 <= i < |claims| && claims[i].kind == RoleClaim
      ensures withRole && i == 2 && claims[i].value == u.role
    {
      assert i != 0 && i != 1 && i != |claims| - 1;
    }
  }

  lemma {:induction false} RoleLookup(claims: seq<Claim>, withRole: bool, role: string)
    requires |claims| >= 3 && claims[0].kind != RoleClaim && claims[1].kind != RoleClaim
    requires claims[|claims| - 1].kind != RoleClaim
    requires withRole ==> |claims| == 4 && claims[2] == Claim(RoleClaim, role)
    requires !withRole ==> |claims| == 3
    ensures ClaimValue(claims, RoleClaim) == if withRole then Some(role) else None
  {
    if withRole {
      ClaimValueAt(claims, RoleClaim, 2);
    } else {
      ClaimValueAbsent(claims, RoleClaim);
    }
  }

  /** The descriptor is signed with Jwt:Key under HMAC-SHA256 and names
      Jwt:Issuer: the same for all three claim-bearing tokens. */
  predicate SignedWith(cfg: Config, d: Descriptor)
  {
    d.issuer == cfg.jwtIssuer && d.signingKey == cfg.jwtKey && d.algorithm == HmacSha256
  }

  function ChangePasswordDescriptor(cfg: Config, u: User, clock: Clock): (d: Descriptor)
    ensures Purpose(d.subject) == Some(ChangePasswordPurpose)
    ensures ClaimValue(d.subject, EmailClaim) == Some(u.email) && SubjectId(d.subject) == Some(u.id)
    ensures ClaimValue(d.subject, RoleClaim) == None
    ensures d.expires == clock.local + Hour
    ensures SignedWith(cfg, d)
  {
    Descriptor(ClaimList(u, false, ChangePasswordPurpose), None, clock.local + Hour, cfg.jwtIssuer, cfg.jwtKey, HmacSha256)
  }

  function AccessDescriptor(cfg: Config, u: User, clock: Clock): (d: Descriptor)
    ensures Purpose(d.subject) == Some(AccessPurpose)
    ensures ClaimValue(d.subject, EmailClaim) == Some(u.email) && SubjectId(d.subject) == Some(u.id)
    ensures ClaimValue(d.subject, RoleClaim) == Some(u.role)
    ensures d.issuedAt == Some(clock.utc) && d.expires == clock.local + Hour
    ensures SignedWith(cfg, d)
  {
    Descriptor(ClaimList(u, true, AccessPurpose), Some(clock.utc), clock.local + Hour, cfg.jwtIssuer, cfg.jwtKey, HmacSha256)
  }

  function MfaDescriptor(cfg: Config, u: User, clock: Clock): (d: Descriptor)
    ensures Purpose(d.subject) == Some(MfaPurpose)
    ensures ClaimValue(d.subject, EmailClaim) == Some(u.email) && SubjectId(d.subject) == Some(u.id)
    ensures ClaimValue(d.subject, RoleClaim) == None
    ensures d.expires == clock.local + (if u.isFirstSignIn then 20 * Minute else 10 * Minute)
    ensures SignedWith(cfg, d)
  {
    var expires := if u.isFirstSignIn then clock.local + 20 * Minute else clock.local + 10 * Minute;
    Descriptor(ClaimList(u, false, MfaPurpose), None, expires, cfg.jwtIssuer, cfg.jwtKey, HmacSha256)
  }

  /** GenerateChangePasswordToken: null exactly for a null user. */
  function GenerateChangePasswordToken(cfg: Config, user: Option<User>, clock: Clock): (r: Option<string>)
    ensures r.None? <==> user.None?
  {
    match user
    case None => None
    case Some(u) => Some(cfg.writeToken(ChangePasswordDescriptor(cfg, u, clock)))
  }

  /** GenerateAccessToken has no null guard: its user is never null. */
  function GenerateAccessToken(cfg: Config, u: User, clock: Clock): string
  {
    cfg.writeToken(AccessDescriptor(cfg, u, clock))
  }

  /** GenerateMfaToken: null exactly for a null user. */
  function GenerateMfaToken(cfg: Config, user: Option<User>, clock: Clock): (r: Option<string>)
    ensures r.None? <==> user.None?
  {
    match user
    case None => None
    case Some(u) => Some(cfg.writeToken(MfaDescriptor(cfg, u, clock)))
  }

  /** Base64 of 64 random bytes: 88 characters ending in "==", never empty. */
  function GenerateRefreshToken(random: RandomBytes): (r: string)
    ensures |r| == 88 && r[86..] == "=="
    ensures forall i :: 0 <= i < 86 ==> Base64.IsDigit(r[i])
  {
    Base64.EncodeLength(random);
    Base64.EncodePadding(random);
    Base64.EncodeDigits(random);
    Base64.Encode(random)
  }
}
