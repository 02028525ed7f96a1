/** The back office's staff-identifier scheme (backend/config/database.js): a
    two-letter prefix per role, one counter row per role in `role_counters`, and
    an identifier made of the prefix and the new counter value padded to three
    digits. Also the staff table's constraints and the default-admin bootstrap. */
module RoleCounters {
  import opened Wrappers
  import opened JsStrings

  /** The five roles the staff table admits, in the order the counters are created. */
  const Roles: seq<string> := ["Manager", "Barista", "Cashier", "Baker", "Cleaner"]

  predicate IsRole(role: string) {
    role in Roles
  }

  /** `rolePrefixes[role] || 'ST'`. */
  function RolePrefix(role: string): (p: string)
    ensures |p| == 2
    ensures p == "ST" <==> !IsRole(role)
  {
    if role == "Manager" then "MA"
    else if role == "Barista" then "BA"
    else if role == "Cashier" then "CA"
    else if role == "Baker" then "BK"
    else if role == "Cleaner" then "CL"
    else "ST"
  }

  /** No two roles share a prefix, so a prefix names its role. */
  lemma PrefixNamesRole(r1: string, r2: string)
    requires IsRole(r1) && IsRole(r2) && r1 != r2
    ensures RolePrefix(r1) != RolePrefix(r2)
  {
  }

  /** `${prefix}${counter.toString().padStart(3, '0')}`: the prefix, then the decimal
      counter padded to at least three digits and never truncated. */
  function FormatStaffId(prefix: string, n: nat): (id: string)
    ensures |id| >= |prefix| + 3 && id[..|prefix|] == prefix
    ensures AllDigits(id[|prefix|..]) && ParseDecimal(id[|prefix|..]) == n
    ensures |id| == |prefix| + 3 <==> n < 1000
  {
    var digits := NatToDecimal(n);
    var padded := PadStart(digits, 3, '0');
    LeadingZerosValue(|padded| - |digits|, digits);
    DecimalRoundTrip(n);
    DecimalWidth(n);
    var id := prefix + padded;
    assert id[..|prefix|] == prefix;
    assert id[|prefix|..] == padded;
    id
  }

  /** A counter value below 1000 is written with at most three digits, and only then. */
  lemma {:induction false} DecimalWidth(n: nat)
    ensures |NatToDecimal(n)| <= 3 <==> n < 1000
  {
    if n >= 10 {
      var d := NatToDecimal(n / 10);
      assert NatToDecimal(n) == d + [DigitChar(n % 10)];
      if n / 10 >= 10 {
        var e := NatToDecimal(n / 100);
        assert n / 10 / 10 == n / 100;
        assert d == e + [DigitChar(n / 10 % 10)];
        if n / 100 >= 10 {
          assert NatToDecimal(n / 100) == NatToDecimal(n / 1000) + [DigitChar(n / 100 % 10)];
        }
      }
    }
  }

  /** Two identifiers with prefixes of the same width are equal only when prefix and
      counter are. */
  lemma StaffIdInjective(p1: string, n1: nat, p2: string, n2: nat)
    requires |p1| == |p2|
    requires FormatStaffId(p1, n1) == FormatStaffId(p2, n2)
    ensures p1 == p2 && n1 == n2
  {
    var id := FormatStaffId(p1, n1);
    assert p1 == id[..|p1|] == p2;
    assert ParseDecimal(id[|p1|..]) == n1;
  }

  /** The identifier every allocation in a run of requests hands out, in order: a
      request for a role with a counter row raises that counter and returns the new
      value; a role without a row gets nothing and changes nothing. */
  function Issue(counters: map<string, nat>, requests: seq<string>): (issued: seq<Option<nat>>)
    ensures |issued| == |requests|
    decreases |requests|
  {
    if requests == [] then []
    else
      var role := requests[0];
      if role in counters then
        [Some(counters[role] + 1)] + Issue(counters[role := counters[role] + 1], requests[1..])
      else
        [None] + Issue(counters, requests[1..])
  }

  /** A request is answered exactly when its role has a counter row, and the number
      exceeds the counter that row held before the run. */
  lemma {:induction false} IssueAbove(counters: map<string, nat>, requests: seq<string>, j: nat)
    requires j < |requests|
    ensures Issue(counters, requests)[j].Some? <==> requests[j] in counters
    ensures requests[j] in counters ==> Issue(counters, requests)[j].value > counters[requests[j]]
    decreases |requests|
  {
    if j > 0 {
      var role := requests[0];
      var next := if role in counters then counters[role := counters[role] + 1] else counters;
      IssueAbove(next, requests[1..], j - 1);
      assert Issue(counters, requests)[j] == Issue(next, requests[1..])[j - 1];
    }
  }

  /** Successive allocations for one role return strictly increasing numbers. */
  lemma {:induction false} IssueIncreasing(counters: map<string, nat>, requests: seq<string>, i: nat, j: nat)
    requires i < j < |requests| && requests[i] == requests[j] && requests[i] in counters
    ensures Issue(counters, requests)[i].Some? && Issue(counters, requests)[j].Some?
    ensures Issue(counters, requests)[i].value < Issue(counters, requests)[j].value
    decreases |requests|
  {
    var role := requests[0];
    var next := if role in counters then counters[role := counters[role] + 1] else counters;
    assert Issue(counters, requests)[j] == Issue(next, requests[1..])[j - 1];
    if i == 0 {
      IssueAbove(next, requests[1..], j - 1);
    } else {
      assert Issue(counters, requests)[i] == Issue(next, requests[1..])[i - 1];
      IssueIncreasing(next, requests[1..], i - 1, j - 1);
    }
  }

  /** When the counter rows are only the five roles', every identifier a run of
      allocations hands out is different from every other. */
  lemma IssuedIdsDistinct(counters: map<string, nat>, requests: seq<string>, i: nat, j: nat)
    requires forall r :: r in counters ==> IsRole(r)
    requires i < j < |requests|
    requires Issue(counters, requests)[i].Some? && Issue(counters, requests)[j].Some?
    ensures FormatStaffId(RolePrefix(requests[i]), Issue(counters, requests)[i].value)
         != FormatStaffId(RolePrefix(requests[j]), Issue(counters, requests)[j].value)
  {
    var issued := Issue(counters, requests);
    IssueAbove(counters, requests, i);
    IssueAbove(counters, requests, j);
    if requests[i] == requests[j] {
      IssueIncreasing(counters, requests, i, j);
    } else {
      PrefixNamesRole(requests[i], requests[j]);
    }
    if FormatStaffId(RolePrefix(requests[i]), issued[i].value)
       == FormatStaffId(RolePrefix(requests[j]), issued[j].value) {
      StaffIdInjective(RolePrefix(requests[i]), issued[i].value, RolePrefix(requests[j]), issued[j].value);
    }
  }

  /** The `role_counters` table: one counter per role. */
  class CounterTable {
    var counters: map<string, nat>

    constructor ()
      ensures counters == map[]
    {
      counters := map[];
    }

    /** The start-up loop: `INSERT OR IGNORE` a zero counter for each of the five
        roles, so a missing row is created and an existing one keeps its value. */
    method InitializeRoles()
      modifies this
      ensures forall r :: r in counters <==> r in old(counters) || IsRole(r)
      ensures forall r :: r in old(counters) ==> counters[r] == old(counters)[r]
      ensures forall r :: IsRole(r) && r !in old(counters) ==> counters[r] == 0
    {
      var i := 0;
      while i < |Roles|
        invariant 0 <= i <= |Roles|
        invariant forall r :: r in counters <==> r in old(counters) || r in Roles[..i]
        invariant forall r :: r in old(counters) ==> counters[r] == old(counters)[r]
        invariant forall r :: r in Roles[..i] && r !in old(counters) ==> counters[r] == 0
      {
        var role := Roles[i];
        if role !in counters {
          counters := counters[role := 0];
        }
        assert Roles[..i + 1] == Roles[..i] + [role];
        i := i + 1;
      }
      assert Roles[..i] == Roles;
    }

    /** `generateStaffId(role)`: raise the role's counter by one and format the new
        value. Without a counter row the update changes nothing and the read finds
        no row, so no identifier comes back (`row.counter` throws; the create
        route that calls this is where that is modelled). */
    method Allocate(role: string) returns (id: Option<string>)
      modifies this
      ensures role in old(counters) ==>
                counters == old(counters)[role := old(counters)[role] + 1] &&
                id == Some(FormatStaffId(RolePrefix(role), counters[role]))
      ensures role !in old(counters) ==> counters == old(counters) && id == None
      ensures Issue(old(counters), [role]) == [if id.Some? then Some(counters[role]) else None]
    {
      if role in counters {
        counters := counters[role := counters[role] + 1];
        id := Some(FormatStaffId(RolePrefix(role), counters[role]));
      } else {
        id := None;
      }
    }
  }

  // ---------------------------------------------------------------- the staff table

  /** A value in one of the columns declared `DATETIME` or `INTEGER`: SQL `NULL`, a
      number, or text the column could not read as a number. */
  datatype Cell = Null | Int(i: int) | Text(s: string)

  /** A row of `staff_members`, every column but the primary key `id`. */
  datatype StaffRow = StaffRow(
    staffId: string, role: string, firstName: string, lastName: string,
    email: string, phone: string, passwordHash: string, hireDate: string,
    createdAt: Cell, createdBy: Cell, lastLogin: Cell)

  /** `staff_members` keyed by its `id INTEGER PRIMARY KEY`. */
  type StaffTable = map<int, StaffRow>

  /** `staff_id UNIQUE`, `email UNIQUE` and `role IN (…the five roles…)`. */
  predicate TableConstraints(rows: StaffTable) {
    && (forall a, b :: a in rows && b in rows && a != b ==> rows[a].staffId != rows[b].staffId)
    && (forall a, b :: a in rows && b in rows && a != b ==> rows[a].email != rows[b].email)
    && (forall a :: a in rows ==> IsRole(rows[a].role))
  }

  /** An `INSERT` into `staff_members` under the new primary key `id`: refused when
      it would break a constraint. */
  function InsertStaff(rows: StaffTable, id: int, row: StaffRow): (r: Result<StaffTable, string>)
    requires TableConstraints(rows)
    ensures r.Ok? <==> && id !in rows && IsRole(row.role)
                       && (forall a :: a in rows ==> rows[a].staffId != row.staffId)
                       && (forall a :: a in rows ==> rows[a].email != row.email)
    ensures r.Ok? ==> r.value == rows[id := row] && TableConstraints(r.value)
  {
    if id in rows then Err("UNIQUE constraint failed: staff_members.id")
    else if !IsRole(row.role) then Err("CHECK constraint failed: role")
    else if exists a :: a in rows && rows[a].staffId == row.staffId then Err("UNIQUE constraint failed: staff_members.staff_id")
    else if exists a :: a in rows && rows[a].email == row.email then Err("UNIQUE constraint failed: staff_members.email")
    else Ok(rows[id := row])
  }

  // ---------------------------------------------------------------- default admin

  datatype AdminUser = AdminUser(username: string, email: string, passwordHash: string, firstName: string, lastName: string)

  /** `process.env.X || fallback`: an unset or empty setting gives the fallback. */
  function Setting(env: Option<string>, fallback: string): (v: string)
    ensures env.Some? && env.value != "" ==> v == env.value
    ensures v == fallback <==> env.None? || env.value == "" || env.value == fallback
  {
    if env.Some? && env.value != "" then env.value else fallback
  }

  function CountUsername(admins: seq<AdminUser>, name: string): nat {
    if admins == [] then 0
    else (if admins[0].username == name then 1 else 0) + CountUsername(admins[1..], name)
  }

  lemma {:induction false} CountUsernameZero(admins: seq<AdminUser>, name: string)
    ensures CountUsername(admins, name) == 0 <==> forall k :: 0 <= k < |admins| ==> admins[k].username != name
  {
    if admins != [] {
      CountUsernameZero(admins[1..], name);
      assert forall k :: 1 <= k < |admins| ==> admins[k] == admins[1..][k - 1];
    }
  }

  predicate AdminEmailTaken(admins: seq<AdminUser>, email: string) {
    exists k :: 0 <= k < |admins| && admins[k].email == email
  }

  /** The start-up bootstrap: insert the default admin (named by the settings, with
      first and last name 'Admin' 'User') only when no admin has that username.
      `email UNIQUE` refuses the insert when another admin already has the
      configured email; the promise has already resolved by then, so the
      rejection is lost and start-up goes on without that admin. */
  function BootstrapAdmin(admins: seq<AdminUser>, usernameEnv: Option<string>, emailEnv: Option<string>, hash: string): (r: seq<AdminUser>)
    ensures var name := Setting(usernameEnv, "admin");
            var email := Setting(emailEnv, "admin@datemaplecafe.com");
            && ((exists k :: 0 <= k < |r| && r[k].username == name)
                  <==> (exists k :: 0 <= k < |admins| && admins[k].username == name) || !AdminEmailTaken(admins, email))
            && ((forall k :: 0 <= k < |admins| ==> admins[k].username != name) && !AdminEmailTaken(admins, email) ==>
                  r == admins + [AdminUser(name, email, hash, "Admin", "User")])
            && ((exists k :: 0 <= k < |admins| && admins[k].username == name) || AdminEmailTaken(admins, email) ==> r == admins)
  {
    var name := Setting(usernameEnv, "admin");
    var email := Setting(emailEnv, "admin@datemaplecafe.com");
    CountUsernameZero(admins, name);
    if CountUsername(admins, name) == 0 && !AdminEmailTaken(admins, email) then
      var r := admins + [AdminUser(name, email, hash, "Admin", "User")];
      assert r[|admins|].username == name;
      assert forall k :: 0 <= k < |admins| ==> r[k] == admins[k];
      r
    else admins
  }

  /** Running the bootstrap again inserts nothing more. */
  lemma BootstrapIdempotent(admins: seq<AdminUser>, usernameEnv: Option<string>, emailEnv: Option<string>, h1: string, h2: string)
    ensures var once := BootstrapAdmin(admins, usernameEnv, emailEnv, h1);
            BootstrapAdmin(once, usernameEnv, emailEnv, h2) == once
  {
  }
}
