/** The staff endpoints of the storefront server (server.js): create, update,
    delete and password reset over the staff list kept in a JSON file, read whole,
    changed in memory and written back. */
module JsonStaffDirectory {
  import opened Wrappers
  import opened JsStrings
  import opened RoleCounters

  /** A staff record as the JSON file holds it. A property the request body did not
      carry is stored as `undefined`, here `None`. */
  datatype StaffRecord = StaffRecord(
    id: int, staffId: string, role: Option<string>,
    firstName: Option<string>, lastName: Option<string>, username: Option<string>,
    email: Option<string>, phone: Option<string>,
    passwordHash: string, passwordSalt: string, passwordSet: bool,
    hireDate: string, updatedDate: Option<string>, passwordResetDate: Option<string>)

  /** What `hashPassword` returns: a salt and the derived key, both opaque here. */
  datatype PasswordHash = PasswordHash(hash: string, salt: string)

  datatype HttpError = HttpError(status: nat, message: string)

  /** A JSON request body whose properties are strings. */
  type Body = map<string, string>

  function Prop(body: Body, key: string): Option<string> {
    if key in body then Some(body[key]) else None
  }

  /** JavaScript truthiness of a string property: present and not empty. */
  predicate Truthy(v: Option<string>) {
    v.Some? && v.value != ""
  }

  const UsernameRequired := HttpError(400, "Username is required")
  const PasswordTooShort := HttpError(400, "Password must be at least 6 characters long")
  const UsernameTaken := HttpError(400, "Username already exists")
  const StaffNotFound := HttpError(404, "Staff member not found")

  // ---------------------------------------------------------------- specification

  /** The first index holding a record with the id (`findIndex(s => s.id == id)`). */
  function IndexOfId(staff: seq<StaffRecord>, id: int): (k: Option<nat>)
    ensures k.Some? ==> k.value < |staff| && staff[k.value].id == id
    ensures k.Some? ==> forall j :: 0 <= j < k.value ==> staff[j].id != id
    ensures k.None? <==> forall j :: 0 <= j < |staff| ==> staff[j].id != id
  {
    if staff == [] then None
    else if staff[0].id == id then Some(0)
    else
      var k := IndexOfId(staff[1..], id);
      if k.Some? then Some(k.value + 1) else None
  }

  /** Some record other than the one with `id` already uses the username. */
  predicate UsernameUsedElsewhere(staff: seq<StaffRecord>, username: string, id: int) {
    exists j :: 0 <= j < |staff| && staff[j].username == Some(username) && staff[j].id != id
  }

  predicate UsernameUsed(staff: seq<StaffRecord>, username: string) {
    exists j :: 0 <= j < |staff| && staff[j].username == Some(username)
  }

  /** The number of records whose role is strictly equal to `role`. */
  function CountWithRole(staff: seq<StaffRecord>, role: Option<string>): (n: nat)
    ensures n <= |staff|
  {
    if staff == [] then 0
    else (if staff[0].role == role then 1 else 0) + CountWithRole(staff[1..], role)
  }

  /** `rolePrefix[role] || 'ST'`, with an absent role giving `ST`. */
  function PrefixOf(role: Option<string>): string {
    if role.Some? then RolePrefix(role.value) else "ST"
  }

  /** The count-based identifier: prefix + (records with the same role + 1), padded. */
  function CountBasedStaffId(staff: seq<StaffRecord>, role: Option<string>): string {
    FormatStaffId(PrefixOf(role), CountWithRole(staff, role) + 1)
  }

  function NewRecord(body: Body, staffId: string, hashed: PasswordHash, now: int, nowIso: string): StaffRecord {
    StaffRecord(now, staffId, Prop(body, "role"), Prop(body, "firstName"), Prop(body, "lastName"),
                Prop(body, "username"), Prop(body, "email"), Prop(body, "phone"),
                hashed.hash, hashed.salt, true, nowIso, None, None)
  }

  /** POST /api/staff: the list after the call, or the error reply. */
  function CreateSpec(staff: seq<StaffRecord>, body: Body, hashed: PasswordHash, now: int, nowIso: string): Result<seq<StaffRecord>, HttpError> {
    var username := Prop(body, "username");
    var password := Prop(body, "password");
    if !Truthy(username) then Err(UsernameRequired)
    else if !Truthy(password) || |password.value| < 6 then Err(PasswordTooShort)
    else if UsernameUsed(staff, username.value) then Err(UsernameTaken)
    else
      var role := Prop(body, "role");
      Ok(staff + [NewRecord(body, CountBasedStaffId(staff, role), hashed, now, nowIso)])
  }

  /** The record after PUT /api/staff/:id: the six editable properties are taken
      from the body (absent ones become undefined), everything else is kept. */
  function Edited(r: StaffRecord, body: Body, nowIso: string): StaffRecord {
    r.(role := Prop(body, "role"), firstName := Prop(body, "firstName"), lastName := Prop(body, "lastName"),
       username := Prop(body, "username"), email := Prop(body, "email"), phone := Prop(body, "phone"),
       updatedDate := Some(nowIso))
  }

  /** PUT /api/staff/:id. */
  function UpdateSpec(staff: seq<StaffRecord>, id: int, body: Body, nowIso: string): Result<seq<StaffRecord>, HttpError> {
    var k := IndexOfId(staff, id);
    var username := Prop(body, "username");
    if k.None? then Err(StaffNotFound)
    else if Truthy(username) && UsernameUsedElsewhere(staff, username.value, id) then Err(UsernameTaken)
    else Ok(staff[k.value := Edited(staff[k.value], body, nowIso)])
  }

  /** DELETE /api/staff/:id. */
  function DeleteSpec(staff: seq<StaffRecord>, id: int): Result<seq<StaffRecord>, HttpError> {
    var k := IndexOfId(staff, id);
    if k.None? then Err(StaffNotFound) else Ok(staff[..k.value] + staff[k.value + 1..])
  }

  /** POST /api/staff/:id/reset-password. */
  function ResetSpec(staff: seq<StaffRecord>, id: int, body: Body, hashed: PasswordHash, nowIso: string): Result<seq<StaffRecord>, HttpError> {
    var newPassword := Prop(body, "newPassword");
    if !Truthy(newPassword) || |newPassword.value| < 6 then Err(PasswordTooShort)
    else
      var k := IndexOfId(staff, id);
      if k.None? then Err(StaffNotFound)
      else
        var r := staff[k.value];
        Ok(staff[k.value := r.(passwordHash := hashed.hash, passwordSalt := hashed.salt, passwordSet := true,
                               passwordResetDate := Some(nowIso))])
  }

  // ---------------------------------------------------------------- the file as a class

  /** The staff list of `staff.json`. */
  class StaffFile {
    var staff: seq<StaffRecord>

    constructor (initial: seq<StaffRecord>)
      ensures staff == initial
    {
      staff := initial;
    }

    /** `staff.findIndex(s => s.id == id)`, -1 when absent. */
    method FindIndex(id: int) returns (k: int)
      ensures -1 <= k < |staff|
      ensures k == -1 <==> IndexOfId(staff, id).None?
      ensures k >= 0 ==> IndexOfId(staff, id) == Some(k)
    {
      k := 0;
      while k < |staff|
        invariant 0 <= k <= |staff|
        invariant forall j :: 0 <= j < k ==> staff[j].id != id
      {
        if staff[k].id == id {
          FirstIndex(staff, id, k);
          return;
        }
        k := k + 1;
      }
      k := -1;
    }

    /** `existingStaff.filter(s => s.role === role).length`. */
    method CountRoleLoop(role: Option<string>) returns (n: nat)
      ensures n == CountWithRole(staff, role)
    {
      n := 0;
      var i := |staff|;
      while i > 0
        invariant 0 <= i <= |staff|
        invariant n == CountWithRole(staff[i..], role)
      {
        i := i - 1;
        assert staff[i..][1..] == staff[i + 1..];
        n := n + (if staff[i].role == role then 1 else 0);
      }
    }

    /** `staff.find(s => s.username === username && s.id != id)`. */
    method FindUsername(username: string, exceptId: Option<int>) returns (found: bool)
      ensures exceptId.None? ==> (found <==> UsernameUsed(staff, username))
      ensures exceptId.Some? ==> (found <==> UsernameUsedElsewhere(staff, username, exceptId.value))
    {
      var i := 0;
      while i < |staff|
        invariant 0 <= i <= |staff|
        invariant forall j :: 0 <= j < i ==> !(staff[j].username == Some(username) && (exceptId.None? || staff[j].id != exceptId.value))
      {
        if staff[i].username == Some(username) && (exceptId.None? || staff[i].id != exceptId.value) {
          return true;
        }
        i := i + 1;
      }
      return false;
    }

    /** POST /api/staff: the checks, then the new record at the end of the list. */
    method Create(body: Body, hashed: PasswordHash, now: int, nowIso: string) returns (err: Option<HttpError>)
      modifies this
      ensures CreateSpec(old(staff), body, hashed, now, nowIso) == if err.Some? then Err(err.value) else Ok(staff)
      ensures err.Some? ==> staff == old(staff)
    {
      var username := Prop(body, "username");
      var password := Prop(body, "password");
      if !Truthy(username) {
        return Some(UsernameRequired);
      }
      if !Truthy(password) || |password.value| < 6 {
        return Some(PasswordTooShort);
      }
      var taken := FindUsername(username.value, None);
      if taken {
        return Some(UsernameTaken);
      }
      var role := Prop(body, "role");
      var count := CountRoleLoop(role);
      var record := NewRecord(body, FormatStaffId(PrefixOf(role), count + 1), hashed, now, nowIso);
      staff := staff + [record];
      return None;
    }

    /** PUT /api/staff/:id. */
    method Update(id: int, body: Body, nowIso: string) returns (err: Option<HttpError>)
      modifies this
      ensures UpdateSpec(old(staff), id, body, nowIso) == if err.Some? then Err(err.value) else Ok(staff)
      ensures err.Some? ==> staff == old(staff)
    {
      var k := FindIndex(id);
      if k == -1 {
        return Some(StaffNotFound);
      }
      var username := Prop(body, "username");
      if Truthy(username) {
        var taken := FindUsername(username.value, Some(id));
        if taken {
          return Some(UsernameTaken);
        }
      }
      staff := staff[k := Edited(staff[k], body, nowIso)];
      return None;
    }

    /** DELETE /api/staff/:id: `splice(staffIndex, 1)`. */
    method Delete(id: int) returns (err: Option<HttpError>)
      modifies this
      ensures DeleteSpec(old(staff), id) == if err.Some? then Err(err.value) else Ok(staff)
      ensures err.Some? ==> staff == old(staff)
    {
      var k := FindIndex(id);
      if k == -1 {
        return Some(StaffNotFound);
      }
      staff := staff[..k] + staff[k + 1..];
      return None;
    }

    /** POST /api/staff/:id/reset-password. */
    method ResetPassword(id: int, body: Body, hashed: PasswordHash, nowIso: string) returns (err: Option<HttpError>)
      modifies this
      ensures ResetSpec(old(staff), id, body, hashed, nowIso) == if err.Some? then Err(err.value) else Ok(staff)
      ensures err.Some? ==> staff == old(staff)
    {
      var newPassword := Prop(body, "newPassword");
      if !Truthy(newPassword) || |newPassword.value| < 6 {
        return Some(PasswordTooShort);
      }
      var k := FindIndex(id);
      if k == -1 {
        return Some(StaffNotFound);
      }
      var r := staff[k];
      staff := staff[k := r.(passwordHash := hashed.hash, passwordSalt := hashed.salt, passwordSet := true,
                             passwordResetDate := Some(nowIso))];
      return None;
    }
  }

  lemma FirstIndex(staff: seq<StaffRecord>, id: int, k: nat)
    requires k < |staff| && staff[k].id == id
    requires forall j :: 0 <= j < k ==> staff[j].id != id
    ensures IndexOfId(staff, id) == Some(k)
  {
    var r := IndexOfId(staff, id);
    assert r.Some?;
  }

  // ---------------------------------------------------------------- properties

  /** No two records share a non-empty username (the server never compares empty
      or missing ones). */
  predicate UsernamesUnique(staff: seq<StaffRecord>) {
    forall i, j :: 0 <= i < j < |staff| && Truthy(staff[i].username) ==> staff[i].username != staff[j].username
  }

  predicate IdsUnique(staff: seq<StaffRecord>) {
    forall i, j :: 0 <= i < j < |staff| ==> staff[i].id != staff[j].id
  }

  /** Create refuses a missing username and then a short password before looking
      at the list; on success it appends exactly one record carrying the body's
      properties, and the earlier records are untouched. */
  lemma CreateFacts(staff: seq<StaffRecord>, body: Body, hashed: PasswordHash, now: int, nowIso: string)
    ensures var r := CreateSpec(staff, body, hashed, now, nowIso);
            && (!Truthy(Prop(body, "username")) ==> r == Err(UsernameRequired))
            && ((Truthy(Prop(body, "username")) && !(Truthy(Prop(body, "password")) && |body["password"]| >= 6))
                  ==> r == Err(PasswordTooShort))
            && (r.Ok? ==> && |r.value| == |staff| + 1 && r.value[..|staff|] == staff
                          && r.value[|staff|].username == Prop(body, "username")
                          && r.value[|staff|].id == now && r.value[|staff|].passwordSet
                          && r.value[|staff|].staffId == CountBasedStaffId(staff, Prop(body, "role")))
            && (r.Ok? <==> Truthy(Prop(body, "username")) && Truthy(Prop(body, "password")) && |body["password"]| >= 6
                           && !UsernameUsed(staff, body["username"]))
  {
    var r := CreateSpec(staff, body, hashed, now, nowIso);
    if r.Ok? {
      assert r.value[..|staff|] == staff;
    }
  }

  /** Create keeps usernames unique. */
  lemma CreateKeepsUsernamesUnique(staff: seq<StaffRecord>, body: Body, hashed: PasswordHash, now: int, nowIso: string)
    requires UsernamesUnique(staff)
    requires CreateSpec(staff, body, hashed, now, nowIso).Ok?
    ensures UsernamesUnique(CreateSpec(staff, body, hashed, now, nowIso).value)
  {
    var s' := CreateSpec(staff, body, hashed, now, nowIso).value;
    forall i, j | 0 <= i < j < |s'| && Truthy(s'[i].username)
      ensures s'[i].username != s'[j].username
    {
      if j == |staff| {
        assert s'[i] == staff[i];
        assert staff[i].username != Some(body["username"]);
      } else {
        assert s'[i] == staff[i] && s'[j] == staff[j];
      }
    }
  }

  /** Update answers 404 exactly for an unknown id; otherwise, unless the username
      is taken by another record, it rewrites the six editable properties of that
      one record from the body and stamps its update date, keeps its id,
      identifier, password fields, reset date and hire date, and leaves every
      other record as it was. */
  lemma UpdateFacts(staff: seq<StaffRecord>, id: int, body: Body, nowIso: string)
    ensures var r := UpdateSpec(staff, id, body, nowIso);
            && (r == Err(StaffNotFound) <==> forall j :: 0 <= j < |staff| ==> staff[j].id != id)
            && (r == Err(UsernameTaken) <==> && IndexOfId(staff, id).Some? && Truthy(Prop(body, "username"))
                                              && UsernameUsedElsewhere(staff, body["username"], id))
            && (r.Ok? ==> && |r.value| == |staff|
                          && var k := IndexOfId(staff, id).value;
                          && (forall j :: 0 <= j < |staff| && j != k ==> r.value[j] == staff[j])
                          && r.value[k].id == staff[k].id && r.value[k].staffId == staff[k].staffId
                          && r.value[k].passwordHash == staff[k].passwordHash
                          && r.value[k].passwordSalt == staff[k].passwordSalt
                          && r.value[k].hireDate == staff[k].hireDate
                          && r.value[k].passwordSet == staff[k].passwordSet
                          && r.value[k].passwordResetDate == staff[k].passwordResetDate
                          && r.value[k].role == Prop(body, "role")
                          && r.value[k].firstName == Prop(body, "firstName")
                          && r.value[k].lastName == Prop(body, "lastName")
                          && r.value[k].username == Prop(body, "username")
                          && r.value[k].email == Prop(body, "email")
                          && r.value[k].phone == Prop(body, "phone")
                          && r.value[k].updatedDate == Some(nowIso))
  {
  }

  /** With distinct ids, an update keeps usernames unique. */
  lemma UpdateKeepsUsernamesUnique(staff: seq<StaffRecord>, id: int, body: Body, nowIso: string)
    requires UsernamesUnique(staff) && IdsUnique(staff)
    requires UpdateSpec(staff, id, body, nowIso).Ok?
    ensures UsernamesUnique(UpdateSpec(staff, id, body, nowIso).value)
  {
    var s' := UpdateSpec(staff, id, body, nowIso).value;
    var k := IndexOfId(staff, id).value;
    forall i, j | 0 <= i < j < |s'| && Truthy(s'[i].username)
      ensures s'[i].username != s'[j].username
    {
      if i == k || j == k {
        var other := if i == k then j else i;
        assert s'[other] == staff[other];
        assert staff[other].id != id;
        assert s'[k].username == Prop(body, "username");
      } else {
        assert s'[i] == staff[i] && s'[j] == staff[j];
      }
    }
  }

  /** Delete answers 404 for an unknown id; otherwise exactly one record goes and
      the others keep their order. */
  lemma DeleteFacts(staff: seq<StaffRecord>, id: int)
    ensures var r := DeleteSpec(staff, id);
            && (r.Err? <==> forall j :: 0 <= j < |staff| ==> staff[j].id != id)
            && (r.Ok? ==> && |r.value| == |staff| - 1
                          && exists k :: 0 <= k < |staff| && staff[k].id == id && r.value == staff[..k] + staff[k + 1..])
  {
    var r := DeleteSpec(staff, id);
    if r.Ok? {
      var k := IndexOfId(staff, id).value;
      assert staff[k].id == id && r.value == staff[..k] + staff[k + 1..];
    }
  }

  /** Reset refuses a short or missing `newPassword` before looking up the record,
      answers 404 for an unknown id, and otherwise changes only the password
      properties of that record. */
  lemma ResetFacts(staff: seq<StaffRecord>, id: int, body: Body, hashed: PasswordHash, nowIso: string)
    ensures var r := ResetSpec(staff, id, body, hashed, nowIso);
            && (!Truthy(Prop(body, "newPassword")) ==> r == Err(PasswordTooShort))
            && (r.Ok? ==> && |r.value| == |staff|
                          && var k := IndexOfId(staff, id).value;
                          && (forall j :: 0 <= j < |staff| && j != k ==> r.value[j] == staff[j])
                          && r.value[k] == staff[k].(passwordHash := hashed.hash, passwordSalt := hashed.salt,
                                                     passwordSet := true, passwordResetDate := Some(nowIso)))
            && (r.Ok? <==> Truthy(Prop(body, "newPassword")) && |body["newPassword"]| >= 6 && IndexOfId(staff, id).Some?)
  {
  }

  // ---------------------------------------------------------------- staff identifiers

  /** No two records carry the same `staff_id`. */
  predicate StaffIdsUnique(staff: seq<StaffRecord>) {
    forall i, j :: 0 <= i < j < |staff| ==> staff[i].staffId != staff[j].staffId
  }

  /** Create as written numbers a new identifier by counting the records that
      have the role. Once a record is deleted, that count can name an identifier
      that is still in use: two Baristas BA001 and BA002, delete BA001, and the next
      Barista is numbered BA002 again. */
  lemma CountBasedIdRepeats()
    ensures var a := StaffRecord(1, "BA001", Some("Barista"), None, None, Some("ann"), None, None, "h", "s", true, "t", None, None);
            var b := StaffRecord(2, "BA002", Some("Barista"), None, None, Some("bob"), None, None, "h", "s", true, "t", None, None);
            var body := map["username" := "cat", "password" := "secret", "role" := "Barista"];
            && StaffIdsUnique([a, b])
            && DeleteSpec([a, b], 1) == Ok([b])
            && CreateSpec([b], body, PasswordHash("h", "s"), 3, "t").Ok?
            && !StaffIdsUnique(CreateSpec([b], body, PasswordHash("h", "s"), 3, "t").value)
  {
    var a := StaffRecord(1, "BA001", Some("Barista"), None, None, Some("ann"), None, None, "h", "s", true, "t", None, None);
    var b := StaffRecord(2, "BA002", Some("Barista"), None, None, Some("bob"), None, None, "h", "s", true, "t", None, None);
    var body := map["username" := "cat", "password" := "secret", "role" := "Barista"];
    assert IndexOfId([a, b], 1) == Some(0);
    assert [a, b][..0] + [a, b][1..] == [b];
    assert Prop(body, "username") == Some("cat") && Prop(body, "password") == Some("secret");
    assert Prop(body, "role") == Some("Barista");
    RepeatAfterDelete(b, body, PasswordHash("h", "s"), 3, "t");
  }

  /** The lone second Barista left after the first one goes: the next Barista is
      numbered from a count of one, which gives the identifier it already has. */
  lemma RepeatAfterDelete(b: StaffRecord, body: Body, hashed: PasswordHash, now: int, nowIso: string)
    requires b.staffId == "BA002" && b.role == Some("Barista") && b.username != Some("cat")
    requires Prop(body, "username") == Some("cat") && Prop(body, "password") == Some("secret")
    requires Prop(body, "role") == Some("Barista")
    ensures CreateSpec([b], body, hashed, now, nowIso).Ok?
    ensures !StaffIdsUnique(CreateSpec([b], body, hashed, now, nowIso).value)
  {
    assert !UsernameUsed([b], "cat");
    assert CountWithRole([b], Some("Barista")) == 1 by {
      assert [b][1..] == [];
    }
    assert CountBasedStaffId([b], Some("Barista")) == "BA002" by {
      assert PrefixOf(Some("Barista")) == "BA";
      SecondBarista();
    }
    var rec := NewRecord(body, "BA002", hashed, now, nowIso);
    var after := [b] + [rec];
    assert CreateSpec([b], body, hashed, now, nowIso) == Ok(after);
    assert after[0].staffId == after[1].staffId;
  }

  lemma SecondBarista()
    ensures FormatStaffId("BA", 2) == "BA002"
  {
    assert NatToDecimal(2) == "2";
    assert Repeat('0', 2) == "00";
  }

  /** The prefix and number an identifier stands for, when it has that shape. */
  predicate NumberedBelow(staffId: string, counters: map<string, nat>) {
    && |staffId| >= 2 && staffId[..2] in counters
    && AllDigits(staffId[2..]) && ParseDecimal(staffId[2..]) <= counters[staffId[..2]]
  }

  /** Every identifier in the file was issued from a per-prefix counter that has
      not gone back since. */
  predicate IdsIssued(staff: seq<StaffRecord>, counters: map<string, nat>) {
    forall j :: 0 <= j < |staff| ==> NumberedBelow(staff[j].staffId, counters)
  }

  /** Create numbered from a counter per prefix that only ever goes up, as the
      `role_counters` table of the database-backed routes does: the identifier of
      the new record is the raised counter, and the counters come back with it. */
  function CreateCounted(staff: seq<StaffRecord>, counters: map<string, nat>, body: Body, hashed: PasswordHash, now: int, nowIso: string): Result<(seq<StaffRecord>, map<string, nat>), HttpError> {
    var username := Prop(body, "username");
    var password := Prop(body, "password");
    if !Truthy(username) then Err(UsernameRequired)
    else if !Truthy(password) || |password.value| < 6 then Err(PasswordTooShort)
    else if UsernameUsed(staff, username.value) then Err(UsernameTaken)
    else
      var prefix := PrefixOf(Prop(body, "role"));
      var n := (if prefix in counters then counters[prefix] else 0) + 1;
      Ok((staff + [NewRecord(body, FormatStaffId(prefix, n), hashed, now, nowIso)], counters[prefix := n]))
  }

  lemma PrefixLength(role: Option<string>)
    ensures |PrefixOf(role)| == 2
  {
  }

  /** The counted create answers exactly as create does and differs only in the
      number of the new identifier; it keeps every identifier issued and distinct. */
  lemma CreateCountedKeepsStaffIdsUnique(staff: seq<StaffRecord>, counters: map<string, nat>, body: Body, hashed: PasswordHash, now: int, nowIso: string)
    requires StaffIdsUnique(staff) && IdsIssued(staff, counters)
    ensures var r := CreateCounted(staff, counters, body, hashed, now, nowIso);
            var q := CreateSpec(staff, body, hashed, now, nowIso);
            && (r.Err? <==> q.Err?) && (r.Err? ==> r.error == q.error)
            && (r.Ok? ==> && StaffIdsUnique(r.value.0) && IdsIssued(r.value.0, r.value.1)
                          && |r.value.0| == |staff| + 1 && r.value.0[..|staff|] == staff)
  {
    var r := CreateCounted(staff, counters, body, hashed, now, nowIso);
    if r.Ok? {
      var prefix := PrefixOf(Prop(body, "role"));
      PrefixLength(Prop(body, "role"));
      var n := (if prefix in counters then counters[prefix] else 0) + 1;
      var rec := NewRecord(body, FormatStaffId(prefix, n), hashed, now, nowIso);
      assert r.value == (staff + [rec], counters[prefix := n]);
      AppendIssued(staff, counters, prefix, n, rec);
    }
  }

  /** A record numbered from a raised counter is new, and every identifier stays
      issued under the raised counters. */
  lemma AppendIssued(staff: seq<StaffRecord>, counters: map<string, nat>, prefix: string, n: nat, rec: StaffRecord)
    requires StaffIdsUnique(staff) && IdsIssued(staff, counters)
    requires |prefix| == 2 && n == (if prefix in counters then counters[prefix] else 0) + 1
    requires rec.staffId == FormatStaffId(prefix, n)
    ensures StaffIdsUnique(staff + [rec]) && IdsIssued(staff + [rec], counters[prefix := n])
    ensures |staff + [rec]| == |staff| + 1 && (staff + [rec])[..|staff|] == staff
  {
    var c' := counters[prefix := n];
    var s' := staff + [rec];
    var newId := rec.staffId;
    assert newId[..2] == prefix && AllDigits(newId[2..]) && ParseDecimal(newId[2..]) == n;
    NumberedBelowRaised(newId, c', prefix, n);
    forall j | 0 <= j < |staff|
      ensures NumberedBelow(staff[j].staffId, c') && staff[j].staffId != newId
    {
      StillBelow(staff[j].staffId, counters, prefix, n);
    }
    assert forall j :: 0 <= j < |staff| ==> s'[j] == staff[j];
    assert s'[|staff|] == rec;
    assert s'[..|staff|] == staff;
  }

  lemma NumberedBelowRaised(id: string, c': map<string, nat>, prefix: string, n: nat)
    requires |id| >= 2 && id[..2] == prefix && AllDigits(id[2..]) && ParseDecimal(id[2..]) == n
    requires prefix in c' && c'[prefix] == n
    ensures NumberedBelow(id, c')
  { }

  /** An identifier issued before the counter of `prefix` went up to `n` is still
      issued after, and is not the one numbered `n`. */
  lemma StillBelow(id: string, counters: map<string, nat>, prefix: string, n: nat)
    requires NumberedBelow(id, counters)
    requires n == (if prefix in counters then counters[prefix] else 0) + 1
    ensures NumberedBelow(id, counters[prefix := n])
    ensures id[..2] == prefix ==> ParseDecimal(id[2..]) < n
  { }

  /** Delete and update leave every identifier issued under the same counters. */
  lemma DeleteAndUpdateKeepIdsIssued(staff: seq<StaffRecord>, counters: map<string, nat>, id: int, body: Body, nowIso: string)
    requires IdsIssued(staff, counters) && StaffIdsUnique(staff)
    ensures DeleteSpec(staff, id).Ok? ==> IdsIssued(DeleteSpec(staff, id).value, counters) && StaffIdsUnique(DeleteSpec(staff, id).value)
    ensures UpdateSpec(staff, id, body, nowIso).Ok? ==> IdsIssued(UpdateSpec(staff, id, body, nowIso).value, counters) && StaffIdsUnique(UpdateSpec(staff, id, body, nowIso).value)
  {
    var d := DeleteSpec(staff, id);
    if d.Ok? {
      var k := IndexOfId(staff, id).value;
      forall j | 0 <= j < |d.value|
        ensures d.value[j] == staff[if j < k then j else j + 1]
      {
      }
    }
  }
}
