/** backend/api/users/update.php and the part of backend/models/User.php it
    calls. Who may change a profile is a decision over the caller, the
    target, whether the caller teaches the target and whether the caller
    belongs to a school: the change is made, forwarded to the school admins
    as notifications, or refused. The fields written are collected one by
    one into `updateData`. `sanitizeInput` and `validateEmail` are
    parameters; the enrolment and school-membership tables are the member
    sets of `Approval.Workflow`. */
module UserApi {
  import opened Common
  import Calendar
  import opened Approval

  /** A row of `users` as `User::getById` returns it, without the columns
      no rule reads. */
  datatype User = User(
    id: nat,
    role: Role,
    firstName: string,
    lastName: string,
    email: string,
    birthDate: Option<string>,
    profilePhoto: Option<string>)

  /** The columns `User::update` writes. */
  const UserFields: set<string> := {"first_name", "last_name", "birth_date", "profile_photo", "email"}

  /** The row after `UPDATE users SET ...` with the given column values;
      columns absent from `data` keep their value. */
  function Patched(u: User, data: map<string, string>): (r: User)
    ensures r.id == u.id && r.role == u.role
    ensures forall f :: f in UserFields && f !in data ==> Column(r, f) == Column(u, f)
    ensures forall f :: f in UserFields && f in data ==> Column(r, f) == Some(data[f])
  {
    u.(firstName := if "first_name" in data then data["first_name"] else u.firstName,
       lastName := if "last_name" in data then data["last_name"] else u.lastName,
       birthDate := if "birth_date" in data then Some(data["birth_date"]) else u.birthDate,
       profilePhoto := if "profile_photo" in data then Some(data["profile_photo"]) else u.profilePhoto,
       email := if "email" in data then data["email"] else u.email)
  }

  /** The value of a writable column, by its name. */
  function Column(u: User, f: string): Option<string>
  {
    match f
    case "first_name" => Some(u.firstName)
    case "last_name" => Some(u.lastName)
    case "birth_date" => u.birthDate
    case "profile_photo" => u.profilePhoto
    case "email" => Some(u.email)
    case _ => None
  }

  class UserTable {
    var users: map<nat, User>

    ghost predicate Valid()
      reads this
    {
      forall k :: k in users ==> users[k].id == k
    }

    constructor ()
      ensures Valid() && users == map[]
    {
      users := map[];
    }

    /** `getById`. */
    function Find(id: Option<nat>): (r: Option<User>)
      reads this
      ensures r.Some? <==> id.Some? && id.value in users
      ensures r.Some? ==> r.value == users[id.value]
    {
      if id.Some? && id.value in users then Some(users[id.value]) else None
    }

    /** `update`: refuses data naming no writable column; otherwise writes
        the named columns of the row, if there is one. */
    method Update(id: nat, data: map<string, string>) returns (r: Result<(), string>)
      requires Valid()
      modifies this
      ensures Valid()
      ensures r.Err? <==> (forall f :: f in data ==> f !in UserFields)
      ensures r.Err? ==> r.error == "No fields to update" && users == old(users)
      ensures r.Ok? ==> users == if id in old(users) then old(users)[id := Patched(old(users)[id], data)] else old(users)
    {
      if forall f :: f in data ==> f !in UserFields {
        return Err("No fields to update");
      }
      if id in users {
        users := users[id := Patched(users[id], data)];
      }
      r := Ok(());
    }
  }

  // ---------------------------------------------------------------------
  // The permission decision

  datatype Decision = Modify | Forward | Forbid

  /** The caller teaches the student: some course the caller teaches has the
      student enrolled. */
  predicate Teaches(enrolled: set<Member>, dir: Directory, teacher: nat, student: nat)
  {
    exists m :: m in enrolled && m.0 == student && m.1 in dir.courseTeacher && dir.courseTeacher[m.1] == teacher
  }

  /** The teacher belongs to at least one existing school. */
  predicate HasSchool(affiliated: set<Member>, dir: Directory, teacher: nat)
  {
    exists m :: m in affiliated && m.0 == teacher && m.1 in dir.schoolAdmin
  }

  /** `SELECT DISTINCT s.admin_id` over the teacher's schools. */
  function Admins(affiliated: set<Member>, dir: Directory, teacher: nat): set<nat>
  {
    set m | m in affiliated && m.0 == teacher && m.1 in dir.schoolAdmin :: dir.schoolAdmin[m.1]
  }

  /** A teacher editing a student they teach while in a school is
      forwarded; the owner of the profile, an admin, or such a teacher
      without a school may change it; anyone else is refused. */
  function Permission(caller: Caller, target: nat, targetRole: Role, teaches: bool, hasSchool: bool): (d: Decision)
    ensures d == Forward <==> caller.role == Teacher && targetRole == Student && teaches && hasSchool
    ensures caller.role == Admin ==> d == Modify
    ensures caller.role == Student ==> (d == Modify <==> caller.id == target)
    ensures d == Modify && caller.id != target && caller.role != Admin ==>
      caller.role == Teacher && targetRole == Student && teaches && !hasSchool
    ensures d == Modify <==>
      !(caller.role == Teacher && targetRole == Student && teaches && hasSchool) &&
      (caller.id == target || (caller.role == Teacher && targetRole == Student && teaches) || caller.role == Admin)
  {
    if caller.role == Teacher && targetRole == Student && teaches && hasSchool then Forward
    else if caller.id == target || (caller.role == Teacher && targetRole == Student && teaches)
      || caller.role == Admin then Modify
    else Forbid
  }

  /** The teacher has a school exactly when the admin list is not empty, so
      a forwarded change always notifies someone. */
  lemma AdminsNonEmpty(affiliated: set<Member>, dir: Directory, teacher: nat)
    ensures HasSchool(affiliated, dir, teacher) <==> Admins(affiliated, dir, teacher) != {}
  {
    if HasSchool(affiliated, dir, teacher) {
      var m :| m in affiliated && m.0 == teacher && m.1 in dir.schoolAdmin;
      assert dir.schoolAdmin[m.1] in Admins(affiliated, dir, teacher);
    }
  }

  /** One `student_data_change` notification per admin, each admin once. */
  method NotifyAdmins(admins: set<nat>, student: nat) returns (notices: seq<Notice>)
    ensures |notices| == |admins|
    ensures forall a :: StudentDataChange(a, student) in notices <==> a in admins
    ensures forall i :: 0 <= i < |notices| ==> notices[i].StudentDataChange? && notices[i].student == student
    ensures forall i, j :: 0 <= i < j < |notices| ==> notices[i] != notices[j]
  {
    notices := [];
    var todo := admins;
    while todo != {}
      invariant todo <= admins
      invariant |notices| + |todo| == |admins|
      invariant forall i :: 0 <= i < |notices| ==>
        notices[i].StudentDataChange? && notices[i].student == student && notices[i].admin in admins - todo
      invariant forall a :: StudentDataChange(a, student) in notices <==> a in admins - todo
      invariant forall i, j :: 0 <= i < j < |notices| ==> notices[i] != notices[j]
      decreases |todo|
    {
      var a :| a in todo;
      notices := notices + [StudentDataChange(a, student)];
      todo := todo - {a};
    }
  }

  // ---------------------------------------------------------------------
  // The endpoint

  /** The decision for a found target. */
  function Decide(users: map<nat, User>, enrolled: set<Member>, affiliated: set<Member>, dir: Directory,
                  caller: Caller, k: nat): Decision
    requires k in users
  {
    Permission(caller, k, users[k].role, Teaches(enrolled, dir, caller.id, k), HasSchool(affiliated, dir, caller.id))
  }

  /** `$updateData`: names, photo and birth date when present, the email only
      on one's own profile; text fields pass through `sanitize`. */
  function UpdateData(body: Payload, own: bool, sanitize: string -> string): (r: map<string, string>)
    ensures r.Keys <= UserFields
    ensures "email" in r <==> own && "email" in body
    ensures forall f :: f in UserFields && f != "email" ==> (f in r <==> f in body)
    ensures "birth_date" in r ==> r["birth_date"] == AsText(body["birth_date"])
  {
    var m1: map<string, string> := if "first_name" in body then map["first_name" := sanitize(AsText(body["first_name"]))] else map[];
    var m2 := if "last_name" in body then m1["last_name" := sanitize(AsText(body["last_name"]))] else m1;
    var m3 := if "birth_date" in body then m2["birth_date" := AsText(body["birth_date"])] else m2;
    var m4 := if "profile_photo" in body then m3["profile_photo" := sanitize(AsText(body["profile_photo"]))] else m3;
    if own && "email" in body then m4["email" := sanitize(AsText(body["email"]))] else m4
  }

  const BadBirthDate: string := "Invalid birth date format. Use YYYY-MM-DD"

  /** The checks on a permitted change, in order: an invalid birth date, an
      invalid email on one's own profile, nothing to write. */
  function FieldRefusal(body: Payload, own: bool, sanitize: string -> string, emailValid: string -> bool): (r: Option<Refusal>)
    ensures r.None? <==> (("birth_date" in body ==> Calendar.ValidateDate(AsText(body["birth_date"])))
      && (own && "email" in body ==> emailValid(AsText(body["email"])))
      && UpdateData(body, own, sanitize) != map[])
    ensures r.Some? ==> r.value.code == 400
  {
    if "birth_date" in body && !Calendar.ValidateDate(AsText(body["birth_date"])) then
      Some(Refusal(400, BadBirthDate, []))
    else if own && "email" in body && !emailValid(AsText(body["email"])) then
      Some(Refusal(400, "Invalid email format", []))
    else if UpdateData(body, own, sanitize) == map[] then Some(Refusal(400, "No fields to update", []))
    else None
  }

  /** The refusals of update.php in order: no id, unknown user, a forbidden
      caller, then the field checks of a permitted change. A forwarded change
      is not refused. */
  function UserRefusal(users: map<nat, User>, enrolled: set<Member>, affiliated: set<Member>, dir: Directory,
                       caller: Caller, body: Payload, sanitize: string -> string, emailValid: string -> bool): (r: Option<Refusal>)
    ensures r.None? <==> (Target(users, body).Some?
      && var k := Target(users, body).value;
      var d := Decide(users, enrolled, affiliated, dir, caller, k);
      d != Forbid && (d == Modify ==> FieldRefusal(body, caller.id == k, sanitize, emailValid).None?))
  {
    if "id" !in body then Some(Refusal(400, "User ID is required", []))
    else if Target(users, body).None? then Some(Refusal(404, "User not found", []))
    else
      var k := Target(users, body).value;
      var d := Decide(users, enrolled, affiliated, dir, caller, k);
      if d == Forward then None
      else if d == Forbid then Some(Refusal(403, "Insufficient permissions to modify this user", []))
      else FieldRefusal(body, caller.id == k, sanitize, emailValid)
  }

  /** The `$canModify` flag and the forwarding branch, in the order the
      script sets them. */
  method DecidePermission(user: User, enrolled: set<Member>, affiliated: set<Member>, dir: Directory,
                          caller: Caller, k: nat) returns (d: Decision)
    ensures d == Permission(caller, k, user.role, Teaches(enrolled, dir, caller.id, k), HasSchool(affiliated, dir, caller.id))
  {
    var canModify := false;
    if caller.id == k {
      canModify := true;
    }
    if caller.role == Teacher && user.role == Student {
      if Teaches(enrolled, dir, caller.id, k) {
        if HasSchool(affiliated, dir, caller.id) {
          return Forward;
        } else {
          canModify := true;
        }
      }
    }
    if caller.role == Admin {
      canModify := true;
    }
    d := if canModify then Modify else Forbid;
  }

  /** Builds `$updateData` field by field, stopping at the first invalid
      value. */
  method CollectUpdateData(body: Payload, own: bool, sanitize: string -> string, emailValid: string -> bool)
    returns (r: Result<map<string, string>, Refusal>)
    ensures r.Err? <==> FieldRefusal(body, own, sanitize, emailValid).Some?
    ensures r.Err? ==> r.error == FieldRefusal(body, own, sanitize, emailValid).value
    ensures r.Ok? ==> r.value == UpdateData(body, own, sanitize)
  {
    var data: map<string, string> := map[];
    if "first_name" in body {
      data := data["first_name" := sanitize(AsText(body["first_name"]))];
    }
    if "last_name" in body {
      data := data["last_name" := sanitize(AsText(body["last_name"]))];
    }
    if "birth_date" in body {
      if !Calendar.ValidateDate(AsText(body["birth_date"])) {
        return Err(Refusal(400, BadBirthDate, []));
      }
      data := data["birth_date" := AsText(body["birth_date"])];
    }
    if "profile_photo" in body {
      data := data["profile_photo" := sanitize(AsText(body["profile_photo"]))];
    }
    if "email" in body && own {
      if !emailValid(AsText(body["email"])) {
        return Err(Refusal(400, "Invalid email format", []));
      }
      data := data["email" := sanitize(AsText(body["email"]))];
    }
    assert data == UpdateData(body, own, sanitize);
    if data == map[] {
      return Err(Refusal(400, "No fields to update", []));
    }
    r := Ok(data);
  }

  /** update.php: a refusal changes nothing; a forwarded change writes
      nothing and notifies each admin of the teacher's schools once; a
      permitted change writes `updateData` to the row and returns it. */
  method UpdateUser(table: UserTable, enrolled: set<Member>, affiliated: set<Member>, dir: Directory,
                    caller: Caller, body: Payload, sanitize: string -> string, emailValid: string -> bool)
    returns (reply: Reply<User>, notices: seq<Notice>)
    requires table.Valid()
    modifies table
    ensures table.Valid()
    ensures var r := UserRefusal(old(table.users), enrolled, affiliated, dir, caller, body, sanitize, emailValid);
      r.Some? ==> reply == Refused(r.value) && notices == [] && table.users == old(table.users)
    ensures UserRefusal(old(table.users), enrolled, affiliated, dir, caller, body, sanitize, emailValid).None? ==>
      var k := Target(old(table.users), body).value;
      var d := Decide(old(table.users), enrolled, affiliated, dir, caller, k);
      (d == Forward ==> (reply == Reply(200, "Modification request sent to administrator for approval", [], None)
        && table.users == old(table.users)
        && |notices| == |Admins(affiliated, dir, caller.id)| > 0
        && (forall a :: StudentDataChange(a, k) in notices <==> a in Admins(affiliated, dir, caller.id))
        && (forall i :: 0 <= i < |notices| ==> notices[i].StudentDataChange? && notices[i].student == k)))
      && (d == Modify ==> (notices == []
        && table.users == old(table.users)[k := Patched(old(table.users)[k], UpdateData(body, caller.id == k, sanitize))]
        && reply == Reply(200, "User updated successfully", [], Some(table.users[k]))))
  {
    if "id" !in body {
      return Refused(Refusal(400, "User ID is required", [])), [];
    }
    var user := table.Find(AsId(body["id"]));
    if user.None? {
      return Refused(Refusal(404, "User not found", [])), [];
    }
    var k := AsId(body["id"]).value;
    var d := DecidePermission(user.value, enrolled, affiliated, dir, caller, k);
    if d == Forward {
      AdminsNonEmpty(affiliated, dir, caller.id);
      notices := NotifyAdmins(Admins(affiliated, dir, caller.id), k);
      return Reply(200, "Modification request sent to administrator for approval", [], None), notices;
    }
    if d == Forbid {
      return Refused(Refusal(403, "Insufficient permissions to modify this user", [])), [];
    }
    var data := CollectUpdateData(body, caller.id == k, sanitize, emailValid);
    if data.Err? {
      return Refused(data.error), [];
    }
    var _ := table.Update(k, data.value);
    var updated := table.Find(Some(k));
    reply := Reply(200, "User updated successfully", [], updated);
    notices := [];
  }

  // ---------------------------------------------------------------------
  // Properties

  /** Someone else's email in the body is ignored: the change is decided and
      written exactly as without it. */
  lemma OthersEmailIgnored(users: map<nat, User>, enrolled: set<Member>, affiliated: set<Member>, dir: Directory,
                           caller: Caller, body: Payload, sanitize: string -> string, emailValid: string -> bool)
    requires "id" in body && AsId(body["id"]) != Some(caller.id)
    ensures var without := body - {"email"};
      UserRefusal(users, enrolled, affiliated, dir, caller, body, sanitize, emailValid)
        == UserRefusal(users, enrolled, affiliated, dir, caller, without, sanitize, emailValid)
      && UpdateData(body, false, sanitize) == UpdateData(without, false, sanitize)
  {
    var without := body - {"email"};
    assert without["id"] == body["id"];
    assert forall f :: f != "email" ==> (f in without <==> f in body);
    assert UpdateData(body, false, sanitize) == UpdateData(without, false, sanitize);
  }

  /** A change never alters a user's id or role, whoever makes it. */
  lemma RoleNeverChanges(users: map<nat, User>, k: nat, body: Payload, own: bool, sanitize: string -> string)
    requires k in users
    ensures var u := Patched(users[k], UpdateData(body, own, sanitize));
      u.id == users[k].id && u.role == users[k].role
  {
  }

  /** A student may change no profile but their own. */
  lemma StudentsEditOnlyThemselves(users: map<nat, User>, enrolled: set<Member>, affiliated: set<Member>, dir: Directory,
                                   caller: Caller, body: Payload, sanitize: string -> string, emailValid: string -> bool)
    requires caller.role == Student
    requires Target(users, body).Some? && Target(users, body).value != caller.id
    ensures UserRefusal(users, enrolled, affiliated, dir, caller, body, sanitize, emailValid)
      == Some(Refusal(403, "Insufficient permissions to modify this user", []))
  {
  }
}
