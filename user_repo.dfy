/** Repositories/UserRepo.cs: the Users table and the Departments table it
    joins. The queries are functions of the table contents; UserRepo holds
    the table and performs the commands. */
module Users {
  import opened Wrappers
  import opened Models
  import opened Guids
  import Seqs
  import Text

  /** The queries that read Users `INNER JOIN Departments ON u.DepartmentId
      = d.Id` see only the rows whose department exists. */
  predicate Joined(departments: map<Guid, string>, u: User)
  {
    u.departmentId in departments
  }

  /** GetUserByEmail: the first joined row whose Email equals `email`. */
  function GetUserByEmail(users: seq<User>, departments: map<Guid, string>, email: string): (r: Option<User>)
    ensures r.Some? ==> r.value in users && r.value.email == email && Joined(departments, r.value)
    ensures r.None? <==> forall u :: u in users ==> !(u.email == email && Joined(departments, u))
  {
    Seqs.FirstWhere(users, (u: User) => u.email == email && Joined(departments, u))
  }

  /** GetUserById: the first joined row with that Id. */
  function GetUserById(users: seq<User>, departments: map<Guid, string>, id: Guid): (r: Option<User>)
    ensures r.Some? ==> r.value in users && r.value.id == id && Joined(departments, r.value)
    ensures r.None? <==> forall u :: u in users ==> !(u.id == id && Joined(departments, u))
  {
    Seqs.FirstWhere(users, (u: User) => u.id == id && Joined(departments, u))
  }

  /** GetUserByTwoFAKeyAsync: the first joined row whose twoFAKey equals
      `key`; a row whose twoFAKey is NULL never matches. */
  function GetUserByTwoFaKey(users: seq<User>, departments: map<Guid, string>, key: string): (r: Option<User>)
    ensures r.Some? ==> r.value in users && r.value.twoFaKey == Some(key) && Joined(departments, r.value)
    ensures r.None? <==> forall u :: u in users ==> !(u.twoFaKey == Some(key) && Joined(departments, u))
  {
    Seqs.FirstWhere(users, (u: User) => u.twoFaKey == Some(key) && Joined(departments, u))
  }

  /** GetAllUsers: every joined row, in table order. */
  function GetAllUsers(users: seq<User>, departments: map<Guid, string>): (r: seq<User>)
    ensures forall u :: u in r <==> u in users && Joined(departments, u)
  {
    var joined := (u: User) => Joined(departments, u);
    Seqs.FilterMembers(users, joined);
    Seqs.Filter(users, joined)
  }

  /** GetAllUserEmails: the Email of every row; this query does no join. */
  function GetAllUserEmails(users: seq<User>): (r: seq<string>)
    ensures |r| == |users| && forall j :: 0 <= j < |users| ==> r[j] == users[j].email
  {
    seq(|users|, j requires 0 <= j < |users| => users[j].email)
  }

  /** Login: `SELECT * FROM Users WHERE Email = @email` (no join), then null
      for a missing or inactive user, then null if BCrypt verification of
      the password against the stored hash fails, else the row. */
  function Login(users: seq<User>, payload: LoginModel, verify: (string, string) -> bool): (r: Option<User>)
    ensures r.Some? ==> r.value in users && r.value.email == payload.email && r.value.isActive
    ensures r.Some? ==> verify(payload.password, r.value.password)
    ensures (forall u :: u in users ==> u.email != payload.email) ==> r.None?
    ensures r.None? <==>
      var first := Seqs.FirstWhere(users, (u: User) => u.email == payload.email);
      first.None? || !first.value.isActive || !verify(payload.password, first.value.password)
  {
    match Seqs.FirstWhere(users, (u: User) => u.email == payload.email)
    case None => None
    case Some(u) =>
      if !u.isActive then None
      else if !verify(payload.password, u.password) then None
      else Some(u)
  }

  /** The row AddUser inserts: Email and Role lower-cased, every other
      column of the INSERT verbatim, the MFA columns NULL and the Id the
      database assigns. */
  function Inserted(payload: User, newId: Guid): (r: User)
    ensures r.email == Text.ToLower(payload.email) && r.role == Text.ToLower(payload.role)
    ensures r.id == newId && r.twoFaKey.None? && r.qrCode.None? && r.manualCode.None?
    ensures r.firstname == payload.firstname && r.lastname == payload.lastname
    ensures r.password == payload.password && r.isActive == payload.isActive
    ensures r.isFirstSignIn == payload.isFirstSignIn && r.isMfaVerified == payload.isMfaVerified
    ensures r.departmentId == payload.departmentId
  {
    payload.(id := newId, email := Text.ToLower(payload.email), role := Text.ToLower(payload.role),
             twoFaKey := None, qrCode := None, manualCode := None)
  }

  /** UpdateMFAfields: exactly isFirstSignIn, isMFA_verified, twoFAKey,
      QRCode and manualCode change, on the rows with the request's id. */
  function WithMfaFields(users: seq<User>, request: UpdateMfaFieldsModel): (r: seq<User>)
    ensures |r| == |users|
    ensures forall j :: 0 <= j < |users| && users[j].id != request.userId ==> r[j] == users[j]
    ensures forall j :: 0 <= j < |users| && users[j].id == request.userId ==>
      r[j] == users[j].(isFirstSignIn := request.isFirstSignIn, isMfaVerified := request.isMfaVerified,
                        twoFaKey := Some(request.mfaKey), qrCode := Some(request.qrCodeUrl),
                        manualCode := Some(request.manualEntryCode))
  {
    Seqs.UpdateWhere(users, (u: User) => u.id == request.userId,
      (u: User) => u.(isFirstSignIn := request.isFirstSignIn, isMfaVerified := request.isMfaVerified,
                      twoFaKey := Some(request.mfaKey), qrCode := Some(request.qrCodeUrl),
                      manualCode := Some(request.manualEntryCode)))
  }

  /** updateFirstSignIn: isFirstSignIn := false and isMFA_verified := true on
      the rows whose Email matches, and nothing else. */
  function WithFirstSignInDone(users: seq<User>, email: string): (r: seq<User>)
    ensures |r| == |users|
    ensures forall j :: 0 <= j < |users| && users[j].email != email ==> r[j] == users[j]
    ensures forall j :: 0 <= j < |users| && users[j].email == email ==>
      r[j] == users[j].(isFirstSignIn := false, isMfaVerified := true)
  {
    Seqs.UpdateWhere(users, (u: User) => u.email == email, (u: User) => u.(isFirstSignIn := false, isMfaVerified := true))
  }

  /** updatePassword: Password := the new hash on the rows whose Email
      matches, and nothing else. */
  function WithPassword(users: seq<User>, email: string, hashed: string): (r: seq<User>)
    ensures |r| == |users|
    ensures forall j :: 0 <= j < |users| && users[j].email != email ==> r[j] == users[j]
    ensures forall j :: 0 <= j < |users| && users[j].email == email ==> r[j] == users[j].(password := hashed)
  {
    Seqs.UpdateWhere(users, (u: User) => u.email == email, (u: User) => u.(password := hashed))
  }

  // ---------------------------------------------------------------------------
  // The string-built UPDATE commands

  datatype SqlValue = Text(text: string) | Flag(flag: bool) | Key(key: Guid)

  datatype Param = Param(name: string, value: SqlValue)

  function Named(name: string): Param -> bool
  {
    (p: Param) => p.name == name
  }

  /** The value DynamicParameters holds under a name. */
  function Lookup(ps: seq<Param>, name: string): Option<SqlValue>
  {
    match Seqs.FirstWhere(ps, Named(name))
    case None => None
    case Some(p) => Some(p.value)
  }

  /** A command's effect, or the SqlException of a command SQL Server cannot
      parse. `affected` is ExecuteCommand's "more than zero rows". */
  datatype Exec = Executed(affected: bool) | SqlError

  const SetPrefix: string := "UPDATE Users SET "
  const WhereId: string := " WHERE Id = @id"
  /** What both builders produce when the payload sets nothing: SET with no
      assignment, a syntax error. */
  const EmptySet: string := "UPDATE Users SET  WHERE Id = @id"

  /** The intended command: the assignments joined by ", ". */
  function UpdateCommand(clauses: seq<string>): (r: string)
    ensures clauses == [] ==> r == EmptySet
    ensures (forall j :: 0 <= j < |clauses| ==> clauses[j] != "") ==> (r == EmptySet <==> clauses == [])
  {
    JoinEmpty(clauses, ", ");
    SetPrefix + Text.Join(clauses, ", ") + WhereId
  }

  lemma {:induction false} JoinEmpty(parts: seq<string>, sep: string)
    ensures (forall j :: 0 <= j < |parts| ==> parts[j] != "") ==> (Text.Join(parts, sep) == "" <==> parts == [])
  {
    if |parts| > 1 && parts[0] != "" {
      assert (parts[0] + sep + Text.Join(parts[1..], sep))[0] == parts[0][0];
    }
  }

  /** Each assignment followed by ", ", as the builders append them. */
  function Terminated(clauses: seq<string>): string
    decreases |clauses|
  {
    if clauses == [] then "" else clauses[0] + ", " + Terminated(clauses[1..])
  }

  lemma {:induction false} TerminatedAppend(a: seq<string>, b: seq<string>)
    ensures Terminated(a + b) == Terminated(a) + Terminated(b)
    decreases |a|
  {
    if a == [] {
      assert a + b == b;
    } else {
      assert (a + b)[1..] == a[1..] + b;
      TerminatedAppend(a[1..], b);
    }
  }

  /** Trimming the last ", " of the terminated form gives the joined form. */
  lemma {:induction false} TerminatedJoin(clauses: seq<string>)
    requires clauses != []
    ensures Terminated(clauses) == Text.Join(clauses, ", ") + ", "
    decreases |clauses|
  {
    if |clauses| > 1 {
      TerminatedJoin(clauses[1..]);
    }
  }

  /** After the appends, the trim of a trailing ", " leaves the prefix
      and the joined clauses. */
  lemma {:induction false} TrimTerminated(prefix: string, clauses: seq<string>)
    requires !Text.EndsWith(prefix, ", ")
    ensures Text.DropSuffix(prefix + Terminated(clauses), ", ") == prefix + Text.Join(clauses, ", ")
  {
    var s := prefix + Terminated(clauses);
    if clauses != [] {
      TerminatedJoin(clauses);
      assert s == (prefix + Text.Join(clauses, ", ")) + ", ";
      assert Text.EndsWith(s, ", ");
    } else {
      assert s == prefix;
    }
  }

  lemma {:induction false} SetPrefixOpen()
    ensures !Text.EndsWith(SetPrefix, ", ")
  {
    assert SetPrefix[|SetPrefix| - 2..] == "T ";
  }

  function Optional(present: bool, clause: string): seq<string>
  {
    if present then [clause] else []
  }

  /** UpdateUser's assignments: FirstName, then LastName, then Email, each
      only when the payload field is not null. */
  function UserClauses(payload: UserUpdate): seq<string>
  {
    Optional(payload.firstname.Some?, "FirstName = @firstname")
    + Optional(payload.lastname.Some?, "LastName = @lastname")
    + Optional(payload.email.Some?, "Email = @email")
  }

  /** UpdatesByAdmin's assignments: DepartmentId, then isActive, then Role. */
  function AdminClauses(payload: UpdatesByAdmin): seq<string>
  {
    Optional(payload.departmentId.Some?, "DepartmentId = @departmentId")
    + Optional(payload.isActive.Some?, "isActive = @isActive")
    + Optional(payload.role.Some?, "Role = @role")
  }

  /** A name bound in `ps` keeps its value when more parameters follow. */
  lemma {:induction false} LookupAppend(ps: seq<Param>, qs: seq<Param>, name: string)
    ensures Lookup(ps + qs, name) == if Lookup(ps, name).Some? then Lookup(ps, name) else Lookup(qs, name)
  {
    Seqs.FirstWhereAppend(ps, qs, Named(name));
  }

  function Bind(present: bool, name: string, value: SqlValue): seq<Param>
  {
    if present then [Param(name, value)] else []
  }

  lemma {:induction false} LookupBind(present: bool, name: string, value: SqlValue, key: string)
    ensures Lookup(Bind(present, name, value), key) == if present && name == key then Some(value) else None
  {
    if present {
      assert Bind(present, name, value)[0] == Param(name, value);
    }
  }

  /** The value of one name in a parameter list built as a first
      parameter, then three optional bindings. */
  lemma {:induction false} LookupChain(x: Param, a: Param, pa: bool, b: Param, pb: bool, c: Param, pc: bool, key: string)
    ensures Lookup([x] + Bind(pa, a.name, a.value) + Bind(pb, b.name, b.value) + Bind(pc, c.name, c.value), key) ==
      if key == x.name then Some(x.value)
      else if pa && key == a.name then Some(a.value)
      else if pb && key == b.name then Some(b.value)
      else if pc && key == c.name then Some(c.value)
      else None
  {
    var p0 := [x];
    var p1 := p0 + Bind(pa, a.name, a.value);
    var p2 := p1 + Bind(pb, b.name, b.value);
    LookupBind(true, x.name, x.value, key);
    assert Bind(true, x.name, x.value) == p0;
    LookupAppend(p0, Bind(pa, a.name, a.value), key);
    LookupBind(pa, a.name, a.value, key);
    LookupAppend(p1, Bind(pb, b.name, b.value), key);
    LookupBind(pb, b.name, b.value, key);
    LookupAppend(p2, Bind(pc, c.name, c.value), key);
    LookupBind(pc, c.name, c.value, key);
  }

  /** The four names of a parameter list built as id, then three optional
      bindings with distinct names. */
  lemma {:induction false} LookupFour(ps: seq<Param>, id: SqlValue, a: Param, pa: bool, b: Param, pb: bool, c: Param, pc: bool)
    requires ps == [Param("id", id)] + Bind(pa, a.name, a.value) + Bind(pb, b.name, b.value) + Bind(pc, c.name, c.value)
    requires a.name != "id" && b.name != "id" && c.name != "id"
    requires a.name != b.name && a.name != c.name && b.name != c.name
    ensures Lookup(ps, "id") == Some(id)
    ensures Lookup(ps, a.name) == if pa then Some(a.value) else None
    ensures Lookup(ps, b.name) == if pb then Some(b.value) else None
    ensures Lookup(ps, c.name) == if pc then Some(c.value) else None
  {
    var x := Param("id", id);
    LookupChain(x, a, pa, b, pb, c, pc, x.name);
    LookupChain(x, a, pa, b, pb, c, pc, a.name);
    LookupChain(x, a, pa, b, pb, c, pc, b.name);
    LookupChain(x, a, pa, b, pb, c, pc, c.name);
  }

  /** UpdateUser's parameters: @id, then the non-null payload fields. */
  function UserParameters(id: Guid, payload: UserUpdate): seq<Param>
  {
    [Param("id", Key(id))]
    + Bind(payload.firstname.Some?, "firstname", Text(payload.firstname.UnwrapOr("")))
    + Bind(payload.lastname.Some?, "lastname", Text(payload.lastname.UnwrapOr("")))
    + Bind(payload.email.Some?, "email", Text(payload.email.UnwrapOr("")))
  }

  /** Each assignment of UpdateUser's command reads the payload field of
      its name; @id is the target id. */
  lemma {:induction false} UserParametersBind(id: Guid, payload: UserUpdate)
    ensures Lookup(UserParameters(id, payload), "id") == Some(Key(id))
    ensures Lookup(UserParameters(id, payload), "firstname") == if payload.firstname.Some? then Some(Text(payload.firstname.value)) else None
    ensures Lookup(UserParameters(id, payload), "lastname") == if payload.lastname.Some? then Some(Text(payload.lastname.value)) else None
    ensures Lookup(UserParameters(id, payload), "email") == if payload.email.Some? then Some(Text(payload.email.value)) else None
  {
    LookupFour(UserParameters(id, payload), Key(id),
      Param("firstname", Text(payload.firstname.UnwrapOr(""))), payload.firstname.Some?,
      Param("lastname", Text(payload.lastname.UnwrapOr(""))), payload.lastname.Some?,
      Param("email", Text(payload.email.UnwrapOr(""))), payload.email.Some?);
  }

  lemma {:induction false} TerminatedThree(a: seq<string>, b: seq<string>, c: seq<string>)
    ensures Terminated(a + b + c) == Terminated(a) + Terminated(b) + Terminated(c)
  {
    TerminatedAppend(a + b, c);
    TerminatedAppend(a, b);
  }

  /** Three rounds of appends leave the prefix followed by the terminated
      clauses of all three rounds. */
  lemma {:induction false} AfterThreeAppends(prefix: string, command: string, x: seq<string>, y: seq<string>, z: seq<string>)
    requires command == prefix + Terminated(x) + Terminated(y) + Terminated(z)
    ensures command == prefix + Terminated(x + y + z)
  {
    TerminatedThree(x, y, z);
  }

  /** One `if (field != null) { parameters.Add(name, field); command +=
      clause + ", "; }` step of a builder. */
  method AppendIfSet(command: string, parameters: seq<Param>, present: bool, clause: string, name: string, value: SqlValue)
    returns (command': string, parameters': seq<Param>)
    ensures command' == command + Terminated(Optional(present, clause))
    ensures parameters' == parameters + Bind(present, name, value)
  {
    command', parameters' := command, parameters;
    if present {
      parameters' := parameters' + [Param(name, value)];
      command' := command' + (clause + ", ");
    }
    assert Terminated(Optional(present, clause)) == if present then clause + ", " + Terminated([]) else "";
  }

  /** One optional `column = @name` assignment of a builder. */
  datatype Assignment = Assignment(present: bool, clause: string, name: string, value: SqlValue)

  /** The shape both builders share: `UPDATE Users SET `, the appends of the
      present assignments, the trim of a trailing ", " and the WHERE. */
  method BuildSetCommand(id: Guid, a: Assignment, b: Assignment, c: Assignment) returns (command: string, parameters: seq<Param>)
    ensures command == UpdateCommand(Optional(a.present, a.clause) + Optional(b.present, b.clause) + Optional(c.present, c.clause))
    ensures parameters == [Param("id", Key(id))] + Bind(a.present, a.name, a.value) + Bind(b.present, b.name, b.value) + Bind(c.present, c.name, c.value)
  {
    parameters := [Param("id", Key(id))];
    command := SetPrefix;
    command, parameters := AppendIfSet(command, parameters, a.present, a.clause, a.name, a.value);
    command, parameters := AppendIfSet(command, parameters, b.present, b.clause, b.name, b.value);
    command, parameters := AppendIfSet(command, parameters, c.present, c.clause, c.name, c.value);
    assert parameters == [Param("id", Key(id))] + Bind(a.present, a.name, a.value) + Bind(b.present, b.name, b.value) + Bind(c.present, c.name, c.value);
    ghost var x, y, z := Optional(a.present, a.clause), Optional(b.present, b.clause), Optional(c.present, c.clause);
    AfterThreeAppends(SetPrefix, command, x, y, z);
    SetPrefixOpen();
    TrimTerminated(SetPrefix, x + y + z);
    command := Text.DropSuffix(command, ", ");
    command := command + WhereId;
  }

  /** UpdateUser's command and parameters, as its appends build them. */
  method BuildUpdateUserCommand(id: Guid, payload: UserUpdate) returns (command: string, parameters: seq<Param>)
    ensures command == UpdateCommand(UserClauses(payload))
    ensures parameters == UserParameters(id, payload)
  {
    command, parameters := BuildSetCommand(id,
      Assignment(payload.firstname.Some?, "FirstName = @firstname", "firstname", Text(payload.firstname.UnwrapOr(""))),
      Assignment(payload.lastname.Some?, "LastName = @lastname", "lastname", Text(payload.lastname.UnwrapOr(""))),
      Assignment(payload.email.Some?, "Email = @email", "email", Text(payload.email.UnwrapOr(""))));
  }

  /** UpdatesByAdmin's parameters: @id, then the non-null payload fields,
      the role lower-cased. */
  function AdminParameters(id: Guid, payload: UpdatesByAdmin): seq<Param>
  {
    [Param("id", Key(id))]
    + Bind(payload.departmentId.Some?, "departmentId", Key(payload.departmentId.UnwrapOr(id)))
    + Bind(payload.isActive.Some?, "isActive", Flag(payload.isActive.UnwrapOr(false)))
    + Bind(payload.role.Some?, "role", Text(Text.ToLower(payload.role.UnwrapOr(""))))
  }

  lemma {:induction false} AdminParametersBind(id: Guid, payload: UpdatesByAdmin)
    ensures Lookup(AdminParameters(id, payload), "id") == Some(Key(id))
    ensures Lookup(AdminParameters(id, payload), "departmentId") == if payload.departmentId.Some? then Some(Key(payload.departmentId.value)) else None
    ensures Lookup(AdminParameters(id, payload), "isActive") == if payload.isActive.Some? then Some(Flag(payload.isActive.value)) else None
    ensures Lookup(AdminParameters(id, payload), "role") == if payload.role.Some? then Some(Text(Text.ToLower(payload.role.value))) else None
  {
    LookupFour(AdminParameters(id, payload), Key(id),
      Param("departmentId", Key(payload.departmentId.UnwrapOr(id))), payload.departmentId.Some?,
      Param("isActive", Flag(payload.isActive.UnwrapOr(false))), payload.isActive.Some?,
      Param("role", Text(Text.ToLower(payload.role.UnwrapOr("")))), payload.role.Some?);
  }

  /** UpdatesByAdmin's command and parameters, as its appends build them. */
  method BuildUpdatesByAdminCommand(id: Guid, payload: UpdatesByAdmin) returns (command: string, parameters: seq<Param>)
    ensures command == UpdateCommand(AdminClauses(payload))
    ensures parameters == AdminParameters(id, payload)
  {
    command, parameters := BuildSetCommand(id,
      Assignment(payload.departmentId.Some?, "DepartmentId = @departmentId", "departmentId", Key(payload.departmentId.UnwrapOr(id))),
      Assignment(payload.isActive.Some?, "isActive = @isActive", "isActive", Flag(payload.isActive.UnwrapOr(false))),
      Assignment(payload.role.Some?, "Role = @role", "role", Text(Text.ToLower(payload.role.UnwrapOr("")))));
  }

  /** UpdateUser's command is the malformed `SET  WHERE` exactly when the
      payload sets nothing. */
  lemma {:induction false} UserCommandEmpty(payload: UserUpdate)
    ensures UpdateCommand(UserClauses(payload)) == EmptySet <==> payload == UserUpdate(None, None, None)
  {
    var clauses := UserClauses(payload);
    assert forall j :: 0 <= j < |clauses| ==> |clauses[j]| >= 13;
  }

  lemma {:induction false} AdminCommandEmpty(payload: UpdatesByAdmin)
    ensures UpdateCommand(AdminClauses(payload)) == EmptySet <==>
      payload.departmentId.None? && payload.isActive.None? && payload.role.None?
  {
    var clauses := AdminClauses(payload);
    assert forall j :: 0 <= j < |clauses| ==> |clauses[j]| >= 11;
  }

  /** What an executed UPDATE writes into one row: every column whose
      parameter the command binds. */
  function AssignUserColumns(u: User, ps: seq<Param>): User
  {
    u.(firstname := match Lookup(ps, "firstname") case Some(Text(v)) => v case _ => u.firstname,
       lastname := match Lookup(ps, "lastname") case Some(Text(v)) => v case _ => u.lastname,
       email := match Lookup(ps, "email") case Some(Text(v)) => v case _ => u.email)
  }

  function AssignAdminColumns(u: User, ps: seq<Param>): User
  {
    u.(departmentId := match Lookup(ps, "departmentId") case Some(Key(g)) => g case _ => u.departmentId,
       isActive := match Lookup(ps, "isActive") case Some(Flag(b)) => b case _ => u.isActive,
       role := match Lookup(ps, "role") case Some(Text(v)) => v case _ => u.role)
  }

  /** UpdateUser on the rows with that Id: each non-null payload field
      replaces its column, verbatim; nothing else changes. */
  function UserUpdated(users: seq<User>, id: Guid, payload: UserUpdate): (r: seq<User>)
    ensures |r| == |users|
    ensures forall j :: 0 <= j < |users| && users[j].id != id ==> r[j] == users[j]
    ensures forall j :: 0 <= j < |users| && users[j].id == id ==>
      r[j] == users[j].(firstname := payload.firstname.UnwrapOr(users[j].firstname),
                        lastname := payload.lastname.UnwrapOr(users[j].lastname),
                        email := payload.email.UnwrapOr(users[j].email))
  {
    Seqs.UpdateWhere(users, (u: User) => u.id == id,
      (u: User) => u.(firstname := payload.firstname.UnwrapOr(u.firstname),
                      lastname := payload.lastname.UnwrapOr(u.lastname),
                      email := payload.email.UnwrapOr(u.email)))
  }

  /** UpdatesByAdmin on the rows with that Id: DepartmentId and isActive
      verbatim, Role lower-cased; nothing else changes. */
  function AdminUpdated(users: seq<User>, id: Guid, payload: UpdatesByAdmin): (r: seq<User>)
    ensures |r| == |users|
    ensures forall j :: 0 <= j < |users| && users[j].id != id ==> r[j] == users[j]
    ensures forall j :: 0 <= j < |users| && users[j].id == id ==>
      r[j] == users[j].(departmentId := payload.departmentId.UnwrapOr(users[j].departmentId),
                        isActive := payload.isActive.UnwrapOr(users[j].isActive),
                        role := if payload.role.Some? then Text.ToLower(payload.role.value) else users[j].role)
  {
    Seqs.UpdateWhere(users, (u: User) => u.id == id,
      (u: User) => u.(departmentId := payload.departmentId.UnwrapOr(u.departmentId),
                      isActive := payload.isActive.UnwrapOr(u.isActive),
                      role := if payload.role.Some? then Text.ToLower(payload.role.value) else u.role))
  }

  /** On one row, UpdateUser's bound parameters write the payload's
      non-null fields. */
  lemma {:induction false} AssignUserRow(u: User, id: Guid, payload: UserUpdate)
    ensures AssignUserColumns(u, UserParameters(id, payload)) ==
      u.(firstname := payload.firstname.UnwrapOr(u.firstname),
         lastname := payload.lastname.UnwrapOr(u.lastname),
         email := payload.email.UnwrapOr(u.email))
  {
    UserParametersBind(id, payload);
  }

  lemma {:induction false} AssignAdminRow(u: User, id: Guid, payload: UpdatesByAdmin)
    ensures AssignAdminColumns(u, AdminParameters(id, payload)) ==
      u.(departmentId := payload.departmentId.UnwrapOr(u.departmentId),
         isActive := payload.isActive.UnwrapOr(u.isActive),
         role := if payload.role.Some? then Text.ToLower(payload.role.value) else u.role)
  {
    AdminParametersBind(id, payload);
  }

  /** Executing UpdateUser's command, row by row, is UserUpdated. */
  lemma {:induction false} UserAssignments(before: seq<User>, after: seq<User>, id: Guid, payload: UserUpdate)
    requires |after| == |before|
    requires forall j :: 0 <= j < |before| ==>
      after[j] == if before[j].id == id then AssignUserColumns(before[j], UserParameters(id, payload)) else before[j]
    ensures after == UserUpdated(before, id, payload)
  {
    var r := UserUpdated(before, id, payload);
    forall j | 0 <= j < |after|
      ensures after[j] == r[j]
    {
      if before[j].id == id {
        AssignUserRow(before[j], id, payload);
      }
    }
  }

  lemma {:induction false} AdminAssignments(before: seq<User>, after: seq<User>, id: Guid, payload: UpdatesByAdmin)
    requires |after| == |before|
    requires forall j :: 0 <= j < |before| ==>
      after[j] == if before[j].id == id then AssignAdminColumns(before[j], AdminParameters(id, payload)) else before[j]
    ensures after == AdminUpdated(before, id, payload)
  {
    var r := AdminUpdated(before, id, payload);
    forall j | 0 <= j < |after|
      ensures after[j] == r[j]
    {
      if before[j].id == id {
        AssignAdminRow(before[j], id, payload);
      }
    }
  }

  /** ExecuteCommand's result for an UPDATE ... WHERE Id = @id. */
  predicate HasId(users: seq<User>, id: Guid)
  {
    exists j :: 0 <= j < |users| && users[j].id == id
  }

  predicate HasEmail(users: seq<User>, email: string)
  {
    exists j :: 0 <= j < |users| && users[j].email == email
  }

  class UserRepo {
    var users: seq<User>
    const departments: map<Guid, string>

    constructor (departments: map<Guid, string>)
      ensures this.departments == departments && users == []
    {
      this.departments := departments;
      users := [];
    }

    /** INSERT INTO Users: one row is affected. */
    method AddUser(payload: User, newId: Guid) returns (added: bool)
      modifies this
      ensures users == old(users) + [Inserted(payload, newId)]
      ensures added
    {
      users := users + [Inserted(payload, newId)];
      added := true;
    }

    method UpdateUser(id: Guid, payload: UserUpdate) returns (result: Exec)
      modifies this
      ensures result == if payload == UserUpdate(None, None, None) then SqlError else Executed(HasId(old(users), id))
      ensures users == if result.SqlError? then old(users) else UserUpdated(old(users), id, payload)
    {
      var command, parameters := BuildUpdateUserCommand(id, payload);
      UserCommandEmpty(payload);
      if command == EmptySet {
        result := SqlError;
        return;
      }
      result := Executed(exists j :: 0 <= j < |users| && users[j].id == id);
      var before := users;
      users := Seqs.UpdateWhere(users, (u: User) => u.id == id, (u: User) => AssignUserColumns(u, parameters));
      UserAssignments(before, users, id, payload);
    }

    method UpdatesByAdmin(id: Guid, payload: UpdatesByAdmin) returns (result: Exec)
      modifies this
      ensures result == if payload.departmentId.None? && payload.isActive.None? && payload.role.None? then SqlError else Executed(HasId(old(users), id))
      ensures users == if result.SqlError? then old(users) else AdminUpdated(old(users), id, payload)
    {
      var command, parameters := BuildUpdatesByAdminCommand(id, payload);
      AdminCommandEmpty(payload);
      if command == EmptySet {
        result := SqlError;
        return;
      }
      result := Executed(exists j :: 0 <= j < |users| && users[j].id == id);
      var before := users;
      users := Seqs.UpdateWhere(users, (u: User) => u.id == id, (u: User) => AssignAdminColumns(u, parameters));
      AdminAssignments(before, users, id, payload);
    }

    method UpdateMfaFields(request: UpdateMfaFieldsModel) returns (updated: bool)
      modifies this
      ensures users == WithMfaFields(old(users), request)
      ensures updated == HasId(old(users), request.userId)
    {
      updated := exists j :: 0 <= j < |users| && users[j].id == request.userId;
      users := WithMfaFields(users, request);
    }

    method UpdateFirstSignIn(email: string) returns (updated: bool)
      modifies this
      ensures users == WithFirstSignInDone(old(users), email)
      ensures updated == HasEmail(old(users), email)
    {
      updated := exists j :: 0 <= j < |users| && users[j].email == email;
      users := WithFirstSignInDone(users, email);
    }

    /** updatePassword; `hashed` is BCrypt.HashPassword(payload.Password). */
    method UpdatePassword(payload: LoginModel, hashed: string) returns (updated: bool)
      modifies this
      ensures users == WithPassword(old(users), payload.email, hashed)
      ensures updated == HasEmail(old(users), payload.email)
    {
      updated := exists j :: 0 <= j < |users| && users[j].email == payload.email;
      users := WithPassword(users, payload.email, hashed);
    }
  }

  // ---------------------------------------------------------------------------
  // Reading back what the commands wrote

  /** A user AddUser inserts is what GetUserByEmail then finds under the
      lower-cased email, unless an earlier joined row has that email. */
  lemma {:induction false} AddUserThenGetByEmail(users: seq<User>, departments: map<Guid, string>, payload: User, newId: Guid)
    requires payload.departmentId in departments
    requires GetUserByEmail(users, departments, Text.ToLower(payload.email)).None?
    ensures GetUserByEmail(users + [Inserted(payload, newId)], departments, Text.ToLower(payload.email))
      == Some(Inserted(payload, newId))
  {
    var email := Text.ToLower(payload.email);
    Seqs.FirstWhereAppend(users, [Inserted(payload, newId)], (u: User) => u.email == email && Joined(departments, u));
    assert [Inserted(payload, newId)][0] == Inserted(payload, newId);
  }

  /** After UpdateMFAfields, GetUserById sees the new MFA fields on the same
      row it saw before. */
  lemma {:induction false} MfaFieldsReadBack(users: seq<User>, departments: map<Guid, string>, request: UpdateMfaFieldsModel)
    ensures GetUserById(WithMfaFields(users, request), departments, request.userId) ==
      match GetUserById(users, departments, request.userId)
      case None => None
      case Some(u) => Some(u.(isFirstSignIn := request.isFirstSignIn, isMfaVerified := request.isMfaVerified,
                              twoFaKey := Some(request.mfaKey), qrCode := Some(request.qrCodeUrl),
                              manualCode := Some(request.manualEntryCode)))
  {
    Seqs.FirstWhereUpdate(users, (u: User) => u.id == request.userId,
      (u: User) => u.(isFirstSignIn := request.isFirstSignIn, isMfaVerified := request.isMfaVerified,
                      twoFaKey := Some(request.mfaKey), qrCode := Some(request.qrCodeUrl),
                      manualCode := Some(request.manualEntryCode)),
      (u: User) => u.id == request.userId && Joined(departments, u));
  }

  /** UpdateMFAfields changes no Email and no DepartmentId, so the lookup by
      email finds the same row as before, with the new MFA fields when it is
      the request's user. */
  lemma {:induction false} MfaFieldsEmailLookup(users: seq<User>, departments: map<Guid, string>, request: UpdateMfaFieldsModel, email: string)
    ensures GetUserByEmail(WithMfaFields(users, request), departments, email) ==
      match GetUserByEmail(users, departments, email)
      case None => None
      case Some(u) => Some(if u.id != request.userId then u
                           else u.(isFirstSignIn := request.isFirstSignIn, isMfaVerified := request.isMfaVerified,
                                   twoFaKey := Some(request.mfaKey), qrCode := Some(request.qrCodeUrl),
                                   manualCode := Some(request.manualEntryCode)))
  {
    Seqs.FirstWhereUpdate(users, (u: User) => u.id == request.userId,
      (u: User) => u.(isFirstSignIn := request.isFirstSignIn, isMfaVerified := request.isMfaVerified,
                      twoFaKey := Some(request.mfaKey), qrCode := Some(request.qrCodeUrl),
                      manualCode := Some(request.manualEntryCode)),
      (u: User) => u.email == email && Joined(departments, u));
  }

  /** After updateFirstSignIn, the user found by that email has finished
      its first sign-in and is verified. */
  lemma {:induction false} FirstSignInReadBack(users: seq<User>, departments: map<Guid, string>, email: string)
    ensures GetUserByEmail(WithFirstSignInDone(users, email), departments, email) ==
      match GetUserByEmail(users, departments, email)
      case None => None
      case Some(u) => Some(u.(isFirstSignIn := false, isMfaVerified := true))
  {
    Seqs.FirstWhereUpdate(users, (u: User) => u.email == email,
      (u: User) => u.(isFirstSignIn := false, isMfaVerified := true),
      (u: User) => u.email == email && Joined(departments, u));
  }

  /** After updatePassword, Login under that email checks the password
      against the new hash, and accepts exactly when the row is active and
      the hash verifies. */
  lemma {:induction false} PasswordThenLogin(users: seq<User>, email: string, hashed: string, password: string, verify: (string, string) -> bool)
    ensures
      var before := Seqs.FirstWhere(users, (u: User) => u.email == email);
      var r := Login(WithPassword(users, email, hashed), LoginModel(email, password), verify);
      r == if before.Some? && before.value.isActive && verify(password, hashed) then Some(before.value.(password := hashed)) else None
  {
    Seqs.FirstWhereUpdate(users, (u: User) => u.email == email, (u: User) => u.(password := hashed),
      (u: User) => u.email == email);
  }

  /** After UpdateUser, GetUserById sees the same row with the payload's
      non-null fields. */
  lemma {:induction false} UpdateUserReadBack(users: seq<User>, departments: map<Guid, string>, id: Guid, payload: UserUpdate)
    ensures GetUserById(UserUpdated(users, id, payload), departments, id) ==
      match GetUserById(users, departments, id)
      case None => None
      case Some(u) => Some(u.(firstname := payload.firstname.UnwrapOr(u.firstname),
                              lastname := payload.lastname.UnwrapOr(u.lastname),
                              email := payload.email.UnwrapOr(u.email)))
  {
    Seqs.FirstWhereUpdate(users, (u: User) => u.id == id,
      (u: User) => u.(firstname := payload.firstname.UnwrapOr(u.firstname),
                      lastname := payload.lastname.UnwrapOr(u.lastname),
                      email := payload.email.UnwrapOr(u.email)),
      (u: User) => u.id == id && Joined(departments, u));
  }
}
