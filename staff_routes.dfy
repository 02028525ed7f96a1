/** The database-backed staff routes (backend/routes/staff.js): the request
    validators, the create flow that allocates an identifier before it checks the
    email, the update-statement builder, password reset, and the by-id routes. */
module StaffRoutes {
  import opened Wrappers
  import opened JsStrings
  import opened FormRules
  import opened RoleCounters
  import opened Requests

  /** A JSON request body whose properties are strings. */
  type Body = map<string, string>

  /** The validators read a missing property as the empty string. */
  function Field(body: Body, key: string): string {
    if key in body then body[key] else ""
  }

  /** The validators, each standing for its `withMessage` text. */
  datatype Rule = InvalidRole | FirstNameLength | LastNameLength | InvalidEmail | InvalidPhone
                | PasswordTooShort | NewPasswordTooShort
  {
    function Message(): string {
      match this
      case InvalidRole => "Invalid role"
      case FirstNameLength => "First name must be 2-50 characters"
      case LastNameLength => "Last name must be 2-50 characters"
      case InvalidEmail => "Invalid email address"
      case InvalidPhone => "Invalid phone number"
      case PasswordTooShort => "Password must be at least 6 characters long"
      case NewPasswordTooShort => "New password must be at least 6 characters long"
    }
  }

  /** A 400 "Validation failed" with the failed rules, or a status and message.
      `Crashed` is no reply at all: an exception thrown inside a database callback
      escapes every handler and ends the server process. */
  datatype Failure = ValidationFailed(errors: seq<Rule>) | Failed(status: nat, message: string) | Crashed

  const EmailTaken := Failed(400, "Email address already exists")
  const NotFound := Failed(404, "Staff member not found")
  const CreateFailed := Failed(500, "Server error while creating staff member")
  const FetchFailed := Failed(500, "Server error while fetching staff member")
  const UpdateFailed := Failed(500, "Server error while updating staff member")
  const DeleteFailed := Failed(500, "Server error while deleting staff member")
  const ResetFailed := Failed(500, "Server error while resetting password")

  // ---------------------------------------------------------------- validators

  /** The `trim()` sanitizers of the two name validators rewrite `req.body` before
      the checks after them and before the handler run. */
  function Sanitize(body: Body): (clean: Body)
    ensures clean.Keys == body.Keys
    ensures Field(clean, "firstName") == Trim(Field(body, "firstName"))
    ensures Field(clean, "lastName") == Trim(Field(body, "lastName"))
    ensures forall k :: k != "firstName" && k != "lastName" ==> Field(clean, k) == Field(body, k)
  {
    var first := if "firstName" in body then body["firstName" := Trim(body["firstName"])] else body;
    if "lastName" in first then first["lastName" := Trim(first["lastName"])] else first
  }

  /** `isLength({ min: 2, max: 50 })` on the trimmed name. */
  predicate NameOk(s: string) {
    2 <= |s| <= 50
  }

  /** The six rules of a create or update request checked in declaration order,
      each failed one listed. */
  function Validate(role: bool, firstName: bool, lastName: bool, email: bool, phone: bool, password: bool): (errors: seq<Rule>)
    ensures |errors| <= 6
    ensures errors == [] <==> role && firstName && lastName && email && phone && password
    ensures forall rule :: rule in errors <==> || (rule == InvalidRole && !role)
                                               || (rule == FirstNameLength && !firstName)
                                               || (rule == LastNameLength && !lastName)
                                               || (rule == InvalidEmail && !email)
                                               || (rule == InvalidPhone && !phone)
                                               || (rule == PasswordTooShort && !password)
  {
    var head := NameChecks(role, firstName, lastName);
    var tail := ContactChecks(email, phone, password);
    assert forall rule :: rule in head + tail <==> rule in head || rule in tail;
    head + tail
  }

  /** The first three rules: role, first name, last name. */
  function NameChecks(role: bool, firstName: bool, lastName: bool): (errors: seq<Rule>)
    ensures |errors| <= 3
    ensures errors == [] <==> role && firstName && lastName
    ensures forall rule :: rule in errors <==> || (rule == InvalidRole && !role)
                                               || (rule == FirstNameLength && !firstName)
                                               || (rule == LastNameLength && !lastName)
  {
    Check(role, InvalidRole) + Check(firstName, FirstNameLength) + Check(lastName, LastNameLength)
  }

  /** The last three rules: email, phone, password. */
  function ContactChecks(email: bool, phone: bool, password: bool): (errors: seq<Rule>)
    ensures |errors| <= 3
    ensures errors == [] <==> email && phone && password
    ensures forall rule :: rule in errors <==> || (rule == InvalidEmail && !email)
                                               || (rule == InvalidPhone && !phone)
                                               || (rule == PasswordTooShort && !password)
  {
    Check(email, InvalidEmail) + Check(phone, InvalidPhone) + Check(password, PasswordTooShort)
  }

  /** The create validators; the two name rules check the name after the
      sanitizer has trimmed it. The library's `isEmail` is the parameter `isEmail`;
      a missing property is checked as the empty string. */
  function CreateErrors(body: Body, isEmail: string -> bool): (errors: seq<Rule>)
    ensures |errors| <= 6
    ensures errors == [] <==> && IsRole(Field(body, "role")) && NameOk(Trim(Field(body, "firstName")))
                              && NameOk(Trim(Field(body, "lastName"))) && isEmail(Field(body, "email"))
                              && IsPhone(Field(body, "phone")) && |Field(body, "password")| >= 6
  {
    Validate(IsRole(Field(body, "role")), NameOk(Trim(Field(body, "firstName"))), NameOk(Trim(Field(body, "lastName"))),
             isEmail(Field(body, "email")), IsPhone(Field(body, "phone")), |Field(body, "password")| >= 6)
  }

  /** The update validators: the create rules, each applied only to a property the
      body carries, the names again after trimming. */
  function UpdateErrors(body: Body, isEmail: string -> bool): (errors: seq<Rule>)
    ensures |errors| <= 6
    ensures errors == [] <==> && ("role" in body ==> IsRole(body["role"]))
                              && ("firstName" in body ==> NameOk(Trim(body["firstName"])))
                              && ("lastName" in body ==> NameOk(Trim(body["lastName"])))
                              && ("email" in body ==> isEmail(body["email"]))
                              && ("phone" in body ==> IsPhone(body["phone"]))
                              && ("password" in body ==> |body["password"]| >= 6)
  {
    Validate("role" !in body || IsRole(body["role"]), "firstName" !in body || NameOk(Trim(body["firstName"])),
             "lastName" !in body || NameOk(Trim(body["lastName"])), "email" !in body || isEmail(body["email"]),
             "phone" !in body || IsPhone(body["phone"]), "password" !in body || |body["password"]| >= 6)
  }

  /** An empty body passes every update validator. */
  lemma EmptyUpdateIsValid(isEmail: string -> bool)
    ensures UpdateErrors(map[], isEmail) == []
  {
  }

  // ---------------------------------------------------------------- create

  /** What the create handler takes from outside the body: the bcrypt hash of the
      password, today's date, the signed-in admin's id, and `CURRENT_TIMESTAMP`. */
  datatype Context = Context(passwordHash: string, hireDate: string, userId: int, now: string)

  /** The row `INSERT` writes, from the sanitized body; `last_login` starts `NULL`. */
  function NewRow(clean: Body, staffId: string, ctx: Context): StaffRow {
    StaffRow(staffId, Field(clean, "role"), Field(clean, "firstName"), Field(clean, "lastName"),
             Field(clean, "email"), Field(clean, "phone"), ctx.passwordHash, ctx.hireDate,
             Text(ctx.now), Int(ctx.userId), Null)
  }

  predicate EmailUsed(rows: StaffTable, email: string) {
    exists a :: a in rows && rows[a].email == email
  }

  /** What the database accepts for an `INSERT` (see `InsertStaff`). */
  predicate Insertable(rows: StaffTable, id: int, row: StaffRow) {
    && id !in rows && IsRole(row.role)
    && (forall a :: a in rows ==> rows[a].staffId != row.staffId)
    && (forall a :: a in rows ==> rows[a].email != row.email)
  }

  /** A reply together with the counters and the rows after the request. */
  datatype Outcome = Outcome(reply: Result<int, Failure>, counters: map<string, nat>, rows: StaffTable)

  /** POST /: validate (trimming the names); hash; allocate the identifier
      (raising the role's counter); only then refuse a duplicate email; insert the
      sanitized body under the new row id. */
  function CreateSpec(counters: map<string, nat>, rows: StaffTable, body: Body, isEmail: string -> bool,
                      ctx: Context, newId: int): Outcome
  {
    var errors := CreateErrors(body, isEmail);
    if errors != [] then Outcome(Err(ValidationFailed(errors)), counters, rows)
    else AllocateAndInsert(counters, rows, Sanitize(body), ctx, newId)
  }

  /** The part of POST / after validation. For a role without a counter row the
      `UPDATE` changes nothing, the `SELECT` finds no row, and `row.counter` throws
      inside the database callback: no reply, and the server stops. */
  function AllocateAndInsert(counters: map<string, nat>, rows: StaffTable, clean: Body, ctx: Context, newId: int): Outcome
  {
    var role := Field(clean, "role");
    if role !in counters then Outcome(Err(Crashed), counters, rows)
    else
      var raised := counters[role := counters[role] + 1];
      InsertNew(raised, rows, newId, NewRow(clean, FormatStaffId(RolePrefix(role), raised[role]), ctx))
  }

  /** The duplicate-email check and the INSERT, once the counter has been raised:
      the row's email is the body's. */
  function InsertNew(raised: map<string, nat>, rows: StaffTable, newId: int, row: StaffRow): Outcome {
    if EmailUsed(rows, row.email) then Outcome(Err(EmailTaken), raised, rows)
    else if Insertable(rows, newId, row) then Outcome(Ok(newId), raised, rows[newId := row])
    else Outcome(Err(CreateFailed), raised, rows)
  }

  /** Every identifier in the table was issued from its role's counter. */
  predicate Issued(row: StaffRow, counters: map<string, nat>) {
    && row.role in counters && |row.staffId| >= 2 && row.staffId[..2] == RolePrefix(row.role)
    && AllDigits(row.staffId[2..]) && ParseDecimal(row.staffId[2..]) <= counters[row.role]
  }

  /** The table's own constraints, and every row's identifier issued. */
  predicate StoreInvariant(counters: map<string, nat>, rows: StaffTable) {
    && TableConstraints(rows)
    && forall a :: a in rows ==> Issued(rows[a], counters)
  }

  /** A create refused for a duplicate email has already raised the counter: the
      number it drew is never handed out. */
  lemma DuplicateEmailConsumesCounter(counters: map<string, nat>, rows: StaffTable, body: Body, isEmail: string -> bool,
                                      ctx: Context, newId: int)
    requires CreateErrors(body, isEmail) == [] && Field(body, "role") in counters
    requires EmailUsed(rows, Field(body, "email"))
    ensures var o := CreateSpec(counters, rows, body, isEmail, ctx, newId);
            && o.reply == Err(EmailTaken) && o.rows == rows
            && o.counters == counters[Field(body, "role") := counters[Field(body, "role")] + 1]
  {
    var clean := Sanitize(body);
    assert Field(clean, "role") == Field(body, "role") && Field(clean, "email") == Field(body, "email");
    assert CreateSpec(counters, rows, body, isEmail, ctx, newId) == AllocateAndInsert(counters, rows, clean, ctx, newId);
    AllocateDuplicate(counters, rows, clean, ctx, newId);
  }

  lemma AllocateDuplicate(counters: map<string, nat>, rows: StaffTable, clean: Body, ctx: Context, newId: int)
    requires Field(clean, "role") in counters && EmailUsed(rows, Field(clean, "email"))
    ensures var role := Field(clean, "role");
            AllocateAndInsert(counters, rows, clean, ctx, newId) == Outcome(Err(EmailTaken), counters[role := counters[role] + 1], rows)
  {
  }

  /** Validation comes first: an invalid body changes nothing. */
  lemma InvalidCreateChangesNothing(counters: map<string, nat>, rows: StaffTable, body: Body, isEmail: string -> bool,
                                    ctx: Context, newId: int)
    requires CreateErrors(body, isEmail) != []
    ensures var o := CreateSpec(counters, rows, body, isEmail, ctx, newId);
            o == Outcome(Err(ValidationFailed(CreateErrors(body, isEmail))), counters, rows)
  {
  }

  /** From a table whose identifiers were all issued, a valid create with a fresh
      email and a fresh row id always inserts: the new identifier clashes with no
      row, the invariant holds again afterwards, and the new row holds the trimmed
      names and the body's other fields. */
  lemma CreateKeepsInvariant(counters: map<string, nat>, rows: StaffTable, body: Body, isEmail: string -> bool,
                             ctx: Context, newId: int)
    requires StoreInvariant(counters, rows) && newId !in rows
    ensures var o := CreateSpec(counters, rows, body, isEmail, ctx, newId);
            && StoreInvariant(o.counters, o.rows)
            && (o.reply.Ok? <==> CreateErrors(body, isEmail) == [] && Field(body, "role") in counters
                                 && !EmailUsed(rows, Field(body, "email")))
            && (o.reply.Ok? ==> o.rows.Keys == rows.Keys + {newId} && forall a :: a in rows ==> o.rows[a] == rows[a])
            && (o.reply.Ok? ==> var row := o.rows[newId];
                  && row.firstName == Trim(Field(body, "firstName")) && NameOk(row.firstName)
                  && row.lastName == Trim(Field(body, "lastName")) && NameOk(row.lastName)
                  && row.role == Field(body, "role") && row.email == Field(body, "email")
                  && row.phone == Field(body, "phone") && row.passwordHash == ctx.passwordHash
                  && row.createdBy == Int(ctx.userId) && row.lastLogin == Null)
  {
    var clean := Sanitize(body);
    assert Field(clean, "role") == Field(body, "role") && Field(clean, "email") == Field(body, "email");
    assert Field(clean, "phone") == Field(body, "phone");
    if CreateErrors(body, isEmail) == [] {
      AllocateKeepsInvariant(counters, rows, clean, ctx, newId);
      AllocateAddsOneRow(counters, rows, clean, ctx, newId);
    }
  }

  /** The stage after validation, for a body whose role is valid. */
  lemma AllocateKeepsInvariant(counters: map<string, nat>, rows: StaffTable, clean: Body, ctx: Context, newId: int)
    requires StoreInvariant(counters, rows) && newId !in rows && IsRole(Field(clean, "role"))
    ensures var o := AllocateAndInsert(counters, rows, clean, ctx, newId);
            && StoreInvariant(o.counters, o.rows)
            && (o.reply.Ok? <==> Field(clean, "role") in counters && !EmailUsed(rows, Field(clean, "email")))
  {
    var o := AllocateAndInsert(counters, rows, clean, ctx, newId);
    var role := Field(clean, "role");
    if role in counters {
      var raised := counters[role := counters[role] + 1];
      var row := NewRow(clean, FormatStaffId(RolePrefix(role), raised[role]), ctx);
      if EmailUsed(rows, row.email) {
        assert o == Outcome(Err(EmailTaken), raised, rows);
        RaiseKeepsIssued(counters, rows, role);
      } else {
        assert o == Outcome(Ok(newId), raised, rows[newId := row]) by {
          RaiseKeepsIssued(counters, rows, role);
          assert Insertable(rows, newId, row);
        }
        assert StoreInvariant(raised, rows[newId := row]) by {
          RaiseKeepsIssued(counters, rows, role);
          NewRowIssued(clean, ctx, counters);
          InsertKeepsInvariant(raised, rows, newId, row);
        }
      }
    } else {
      assert o == Outcome(Err(Crashed), counters, rows);
    }
  }

  /** A create that succeeds adds the one row under the new row id, a row made
      from the sanitized body, and leaves the others alone. */
  lemma AllocateAddsOneRow(counters: map<string, nat>, rows: StaffTable, clean: Body, ctx: Context, newId: int)
    ensures var o := AllocateAndInsert(counters, rows, clean, ctx, newId);
            o.reply.Ok? ==> && o.reply.value == newId && newId !in rows && o.rows.Keys == rows.Keys + {newId}
                            && (forall a :: a in rows ==> o.rows[a] == rows[a])
                            && o.rows[newId] == NewRow(clean, o.rows[newId].staffId, ctx)
  {
    var role := Field(clean, "role");
    if role in counters {
      var raised := counters[role := counters[role] + 1];
      InsertNewAdds(raised, rows, newId, NewRow(clean, FormatStaffId(RolePrefix(role), raised[role]), ctx));
    }
  }

  lemma InsertNewAdds(raised: map<string, nat>, rows: StaffTable, newId: int, row: StaffRow)
    ensures var o := InsertNew(raised, rows, newId, row);
            o.reply.Ok? ==> && o.reply.value == newId && newId !in rows && o.rows.Keys == rows.Keys + {newId}
                            && (forall a :: a in rows ==> o.rows[a] == rows[a]) && o.rows[newId] == row
  {
    if InsertNew(raised, rows, newId, row).reply.Ok? {
      assert rows[newId := row].Keys == rows.Keys + {newId};
    }
  }

  /** Raising one role's counter keeps every row issued, and the identifier it
      hands out is in no row. */
  lemma RaiseKeepsIssued(counters: map<string, nat>, rows: StaffTable, role: string)
    requires StoreInvariant(counters, rows) && IsRole(role) && role in counters
    ensures var raised := counters[role := counters[role] + 1];
            && StoreInvariant(raised, rows)
            && forall a :: a in rows ==> rows[a].staffId != FormatStaffId(RolePrefix(role), raised[role])
  {
    forall a | a in rows
      ensures Issued(rows[a], counters[role := counters[role] + 1])
      ensures rows[a].staffId != FormatStaffId(RolePrefix(role), counters[role] + 1)
    {
      IssuedIdIsNew(rows[a], counters, role);
    }
  }

  lemma InsertKeepsInvariant(counters: map<string, nat>, rows: StaffTable, id: int, row: StaffRow)
    requires StoreInvariant(counters, rows) && Insertable(rows, id, row) && Issued(row, counters)
    ensures StoreInvariant(counters, rows[id := row])
  {
    assert InsertStaff(rows, id, row).Ok?;
  }

  /** An identifier already issued is still issued once a counter is raised, and
      differs from the one the raised counter hands out: a different role has a
      different prefix, and the same role a smaller number. */
  lemma IssuedIdIsNew(other: StaffRow, counters: map<string, nat>, role: string)
    requires Issued(other, counters) && IsRole(other.role) && IsRole(role) && role in counters
    ensures var raised := counters[role := counters[role] + 1];
            && Issued(other, raised)
            && other.staffId != FormatStaffId(RolePrefix(role), raised[role])
  {
    var id := FormatStaffId(RolePrefix(role), counters[role] + 1);
    if other.role != role {
      PrefixNamesRole(other.role, role);
      assert other.staffId[..2] != id[..2];
    } else {
      assert other.staffId[2..] != id[2..];
    }
  }

  /** The row a create inserts carries an identifier issued from the raised counter. */
  lemma NewRowIssued(clean: Body, ctx: Context, counters: map<string, nat>)
    requires Field(clean, "role") in counters && IsRole(Field(clean, "role"))
    ensures var role := Field(clean, "role");
            var raised := counters[role := counters[role] + 1];
            Issued(NewRow(clean, FormatStaffId(RolePrefix(role), raised[role]), ctx), raised)
  {
  }

  // ---------------------------------------------------------------- update builder

  /** `firstName` and `lastName` become their column names; every other key is used
      as a column name unchanged. */
  function ColumnOf(key: string): string {
    if key == "firstName" then "first_name" else if key == "lastName" then "last_name" else key
  }

  /** One entry after the name sanitizers: a `firstName` or `lastName` trimmed. */
  function SanitizeEntry(e: (string, string)): (string, string) {
    if e.0 == "firstName" || e.0 == "lastName" then (e.0, Trim(e.1)) else e
  }

  /** `Object.entries(req.body)` once the sanitizers have run: the same keys in the
      same order. */
  function SanitizeEntries(entries: seq<(string, string)>): (clean: seq<(string, string)>)
    ensures |clean| == |entries|
    ensures forall i :: 0 <= i < |entries| ==> clean[i] == SanitizeEntry(entries[i])
  {
    if entries == [] then []
    else SanitizeEntries(entries[..|entries| - 1]) + [SanitizeEntry(entries[|entries| - 1])]
  }

  /** Sanitizing the entries one by one spells the sanitized body. */
  lemma {:induction false} SanitizeEntriesBody(entries: seq<(string, string)>)
    ensures BodyOf(SanitizeEntries(entries)) == Sanitize(BodyOf(entries))
  {
    if entries != [] {
      var init := entries[..|entries| - 1];
      var last := entries[|entries| - 1];
      var clean := SanitizeEntries(entries);
      var c0 := SanitizeEntries(init);
      assert clean == c0 + [SanitizeEntry(last)];
      assert clean[..|clean| - 1] == c0 && clean[|clean| - 1] == SanitizeEntry(last);
      assert BodyOf(clean) == BodyOf(c0)[last.0 := SanitizeEntry(last).1];
      SanitizeEntriesBody(init);
      assert BodyOf(entries) == BodyOf(init)[last.0 := last.1];
      SanitizeAssign(BodyOf(init), last.0, last.1);
    }
  }

  /** Setting a key and then sanitizing is sanitizing and then setting the key's
      sanitized value. */
  lemma SanitizeAssign(body: Body, key: string, value: string)
    ensures Sanitize(body[key := value]) == Sanitize(body)[key := SanitizeEntry((key, value)).1]
  {
    var l := Sanitize(body[key := value]);
    var r := Sanitize(body)[key := SanitizeEntry((key, value)).1];
    assert l.Keys == r.Keys;
    forall k | k in l
      ensures l[k] == r[k]
    {
      assert Field(l, k) == l[k] && Field(r, k) == r[k];
      if k != key {
        assert Field(body[key := value], k) == Field(body, k);
        assert Field(Sanitize(body), k) == r[k];
      }
    }
  }

  /** What one `[key, value]` entry contributes to the SET list: a non-blank
      `password` its hash under `password_hash`, a blank one nothing, any other key
      its column and value. `value.trim()` is empty exactly when the value is all
      white space (the contract of `Trim`), which is the test written here. */
  function EntryColumn(key: string, value: string, hash: string -> string): (cols: seq<(string, string)>)
    ensures |cols| <= 1
  {
    if key == "password" then (if !AllSpace(value) then [("password_hash", hash(value))] else [])
    else [(ColumnOf(key), value)]
  }

  /** The SET list for the entries of the body, in their order. */
  function UpdateColumns(entries: seq<(string, string)>, hash: string -> string): (cols: seq<(string, string)>)
    ensures |cols| <= |entries|
  {
    if entries == [] then []
    else
      var last := entries[|entries| - 1];
      UpdateColumns(entries[..|entries| - 1], hash) + EntryColumn(last.0, last.1, hash)
  }

  /** The `for (const [key, value] of Object.entries(updates))` loop, pushing onto
      `updateFields` and `updateValues`. */
  method BuildUpdate(entries: seq<(string, string)>, hash: string -> string) returns (fields: seq<string>, values: seq<string>)
    ensures var cols := UpdateColumns(entries, hash);
            && |fields| == |cols| && |values| == |cols|
            && forall i :: 0 <= i < |cols| ==> fields[i] == cols[i].0 + " = ?" && values[i] == cols[i].1
  {
    fields, values := [], [];
    var i := 0;
    while i < |entries|
      invariant 0 <= i <= |entries|
      invariant SetList(fields, values, UpdateColumns(entries[..i], hash))
    {
      var (key, value) := entries[i];
      ghost var before := UpdateColumns(entries[..i], hash);
      assert entries[..i + 1][..i] == entries[..i];
      assert UpdateColumns(entries[..i + 1], hash) == before + EntryColumn(key, value, hash);
      if key == "password" && !AllSpace(value) {
        SetListPush(fields, values, before, "password_hash", hash(value));
        fields := fields + ["password_hash" + " = ?"];
        values := values + [hash(value)];
      } else if key != "password" {
        SetListPush(fields, values, before, ColumnOf(key), value);
        fields := fields + [ColumnOf(key) + " = ?"];
        values := values + [value];
      } else {
        assert before + EntryColumn(key, value, hash) == before;
      }
      i := i + 1;
    }
    assert entries[..i] == entries;
  }

  /** What the SET list holds: every non-password entry under its column, the hash
      of every non-blank password, never a raw `password`, `firstName` or `lastName`;
      and it is empty, so no UPDATE runs, exactly when every entry is a blank
      password. */
  lemma {:induction false} UpdateColumnsFacts(entries: seq<(string, string)>, hash: string -> string)
    ensures var cols := UpdateColumns(entries, hash);
            && (forall i :: 0 <= i < |entries| && entries[i].0 != "password" ==> (ColumnOf(entries[i].0), entries[i].1) in cols)
            && (forall i :: 0 <= i < |entries| && entries[i].0 == "password" && !AllSpace(entries[i].1) ==>
                  ("password_hash", hash(entries[i].1)) in cols)
            && (forall p :: p in cols ==> p.0 != "password" && p.0 != "firstName" && p.0 != "lastName")
            && (cols == [] <==> forall i :: 0 <= i < |entries| ==> entries[i].0 == "password" && AllSpace(entries[i].1))
  {
    if entries != [] {
      var init := entries[..|entries| - 1];
      var last := entries[|entries| - 1];
      UpdateColumnsFacts(init, hash);
      assert forall i :: 0 <= i < |init| ==> entries[i] == init[i];
      assert UpdateColumns(entries, hash) == UpdateColumns(init, hash) + EntryColumn(last.0, last.1, hash);
      EntryColumnShape(last.0, last.1, hash);
    }
  }

  lemma EntryColumnShape(key: string, value: string, hash: string -> string)
    ensures var cols := EntryColumn(key, value, hash);
            && (key != "password" ==> cols == [(ColumnOf(key), value)])
            && (key == "password" && !AllSpace(value) ==> cols == [("password_hash", hash(value))])
            && (cols == [] <==> key == "password" && AllSpace(value))
            && (forall p :: p in cols ==> p.0 != "password" && p.0 != "firstName" && p.0 != "lastName")
  { }

  // ---------------------------------------------------------------- password reset

  function ResetErrors(body: Body): (errors: seq<Rule>)
    ensures errors == [] <==> |Field(body, "newPassword")| >= 6
    ensures errors != [] ==> errors == [NewPasswordTooShort]
  {
    Check(|Field(body, "newPassword")| >= 6, NewPasswordTooShort)
  }

  /** POST /:id/reset-password: validate, 404 for an unknown id, then set only
      `password_hash`. */
  function ResetSpec(rows: StaffTable, id: int, body: Body, passwordHash: string): Result<StaffTable, Failure> {
    var errors := ResetErrors(body);
    if errors != [] then Err(ValidationFailed(errors))
    else if id !in rows then Err(NotFound)
    else Ok(rows[id := rows[id].(passwordHash := passwordHash)])
  }

  /** Reset touches one row, and in it only the password hash; the table's
      constraints and the issued identifiers stay as they were. */
  lemma ResetFacts(counters: map<string, nat>, rows: StaffTable, id: int, body: Body, passwordHash: string)
    ensures var r := ResetSpec(rows, id, body, passwordHash);
            && (r.Ok? <==> |Field(body, "newPassword")| >= 6 && id in rows)
            && (r == Err(NotFound) <==> |Field(body, "newPassword")| >= 6 && id !in rows)
            && (r.Ok? ==> && r.value.Keys == rows.Keys
                          && (forall a :: a in rows && a != id ==> r.value[a] == rows[a])
                          && r.value[id] == rows[id].(passwordHash := passwordHash))
            && (r.Ok? && StoreInvariant(counters, rows) ==> StoreInvariant(counters, r.value))
  {
  }

  // ---------------------------------------------------------------- the store

  /** `role_counters` and `staff_members` together. */
  class StaffDatabase {
    var counters: map<string, nat>
    var rows: StaffTable

    constructor (counters0: map<string, nat>, rows0: StaffTable)
      ensures counters == counters0 && rows == rows0
    {
      counters, rows := counters0, rows0;
    }

    /** POST /: the route in the order it runs. */
    method Create(body: Body, isEmail: string -> bool, ctx: Context, newId: int)
      returns (reply: Result<int, Failure>)
      modifies this
      ensures Outcome(reply, counters, rows) == CreateSpec(old(counters), old(rows), body, isEmail, ctx, newId)
    {
      var errors := CreateErrors(body, isEmail);
      if errors != [] {
        return Err(ValidationFailed(errors));
      }
      var clean := Sanitize(body);
      reply := AllocateThenInsert(clean, ctx, newId);
    }

    /** `generateStaffId(role)`, then the email lookup, then the `INSERT`. */
    method AllocateThenInsert(clean: Body, ctx: Context, newId: int)
      returns (reply: Result<int, Failure>)
      modifies this
      ensures Outcome(reply, counters, rows) == AllocateAndInsert(old(counters), old(rows), clean, ctx, newId)
    {
      var role := Field(clean, "role");
      if role !in counters {
        return Err(Crashed);
      }
      counters := counters[role := counters[role] + 1];
      var staffId := FormatStaffId(RolePrefix(role), counters[role]);
      reply := Insert(NewRow(clean, staffId, ctx), newId);
    }

    /** The email lookup, then the `INSERT`. */
    method Insert(row: StaffRow, newId: int) returns (reply: Result<int, Failure>)
      modifies this
      ensures Outcome(reply, counters, rows) == InsertNew(old(counters), old(rows), newId, row)
    {
      if EmailUsed(rows, row.email) {
        return Err(EmailTaken);
      }
      if !Insertable(rows, newId, row) {
        return Err(CreateFailed);
      }
      rows := rows[newId := row];
      return Ok(newId);
    }

    /** POST /:id/reset-password. */
    method ResetPassword(id: int, body: Body, passwordHash: string) returns (reply: Result<(), Failure>)
      modifies this
      ensures ResetSpec(old(rows), id, body, passwordHash) == if reply.Ok? then Ok(rows) else Err(reply.error)
      ensures counters == old(counters)
      ensures reply.Err? ==> rows == old(rows)
    {
      var errors := ResetErrors(body);
      if errors != [] {
        return Err(ValidationFailed(errors));
      }
      if id !in rows {
        return Err(NotFound);
      }
      rows := rows[id := rows[id].(passwordHash := passwordHash)];
      return Ok(());
    }
  }

  // ---------------------------------------------------------------- the by-id routes

  /** GET /:id, PUT /:id and DELETE /:id as written: after validation each calls
      `pool.getConnection()`, and `pool` is not defined in the module, so the
      ReferenceError lands in the catch branch. */
  function PoolRouteAsWritten(validationErrors: seq<Rule>, serverError: Failure): (r: Result<(), Failure>)
    ensures r.Err?
    ensures validationErrors == [] ==> r == Err(serverError)
  {
    if validationErrors != [] then Err(ValidationFailed(validationErrors)) else Err(serverError)
  }

  /** As written, no request to the three routes ever succeeds: GET and DELETE
      answer 500 for every id, and PUT answers 400 or 500 for every body. */
  lemma PoolRoutesAlwaysFail(rows: StaffTable, id: int, body: Body, isEmail: string -> bool)
    ensures PoolRouteAsWritten([], FetchFailed) == Err(FetchFailed)
    ensures PoolRouteAsWritten([], DeleteFailed) == Err(DeleteFailed)
    ensures id in rows ==> PoolRouteAsWritten(UpdateErrors(body, isEmail), UpdateFailed).Err?
    ensures UpdateErrors(body, isEmail) == [] ==> PoolRouteAsWritten(UpdateErrors(body, isEmail), UpdateFailed) == Err(UpdateFailed)
  {
  }

  /** GET /:id with a working connection. */
  function GetById(rows: StaffTable, id: int): (r: Result<StaffRow, Failure>)
    ensures r.Ok? <==> id in rows
    ensures r.Ok? ==> r.value == rows[id]
    ensures r.Err? ==> r.error == NotFound
  {
    if id in rows then Ok(rows[id]) else Err(NotFound)
  }

  /** DELETE /:id with a working connection. */
  function DeleteById(rows: StaffTable, id: int): Result<StaffTable, Failure> {
    if id !in rows then Err(NotFound) else Ok(rows - {id})
  }

  /** Deleting removes exactly that row, and keeps the constraints and the issued
      identifiers. */
  lemma DeleteFacts(counters: map<string, nat>, rows: StaffTable, id: int)
    ensures var r := DeleteById(rows, id);
            && (r.Err? <==> id !in rows) && (r.Err? ==> r.error == NotFound)
            && (r.Ok? ==> r.value.Keys == rows.Keys - {id} && forall a :: a in r.value ==> r.value[a] == rows[a])
            && (r.Ok? && StoreInvariant(counters, rows) ==> StoreInvariant(counters, r.value))
  {
  }

  /** How SQLite stores a text in a column declared `DATETIME` or `INTEGER`: as a
      number when `asInteger` reads it as one, otherwise as the text. */
  function NumericCell(value: string, asInteger: string -> Option<int>): Cell {
    if asInteger(value).Some? then Int(asInteger(value).value) else Text(value)
  }

  /** `SET column = value` on the row with primary key `key`, for every column of
      `staff_members`; any other name is an SQL error. Setting `id` moves the row
      to the key the value reads as, and a value that is no integer is an error. */
  function SetColumn(key: int, row: StaffRow, column: string, value: string, asInteger: string -> Option<int>)
    : Option<(int, StaffRow)>
  {
    if column == "id" then (if asInteger(value).Some? then Some((asInteger(value).value, row)) else None)
    else if column == "staff_id" then Some((key, row.(staffId := value)))
    else if column == "role" then Some((key, row.(role := value)))
    else if column == "first_name" then Some((key, row.(firstName := value)))
    else if column == "last_name" then Some((key, row.(lastName := value)))
    else if column == "email" then Some((key, row.(email := value)))
    else if column == "phone" then Some((key, row.(phone := value)))
    else if column == "password_hash" then Some((key, row.(passwordHash := value)))
    else if column == "hire_date" then Some((key, row.(hireDate := value)))
    else if column == "created_at" then Some((key, row.(createdAt := NumericCell(value, asInteger))))
    else if column == "created_by" then Some((key, row.(createdBy := NumericCell(value, asInteger))))
    else if column == "last_login" then Some((key, row.(lastLogin := NumericCell(value, asInteger))))
    else None
  }

  /** The SET list applied in order (for a column named twice the last value
      stays, as SQLite does). */
  function ApplyColumns(key: int, row: StaffRow, cols: seq<(string, string)>, asInteger: string -> Option<int>)
    : Option<(int, StaffRow)>
    decreases |cols|
  {
    if cols == [] then Some((key, row))
    else
      var next := SetColumn(key, row, cols[0].0, cols[0].1, asInteger);
      if next.None? then None else ApplyColumns(next.value.0, next.value.1, cols[1..], asInteger)
  }

  /** Without an `id` column the row keeps its key. */
  lemma {:induction false} ApplyColumnsKeepsKey(key: int, row: StaffRow, cols: seq<(string, string)>, asInteger: string -> Option<int>)
    requires forall p :: p in cols ==> p.0 != "id"
    ensures var moved := ApplyColumns(key, row, cols, asInteger);
            moved.Some? ==> moved.value.0 == key
    decreases |cols|
  {
    if cols != [] {
      assert cols[0] in cols;
      var next := SetColumn(key, row, cols[0].0, cols[0].1, asInteger);
      if next.Some? {
        assert forall p :: p in cols[1..] ==> p in cols;
        ApplyColumnsKeepsKey(next.value.0, next.value.1, cols[1..], asInteger);
      }
    }
  }

  /** No SET column is named `id` unless the body has an `id` property. */
  lemma {:induction false} NoIdColumn(entries: seq<(string, string)>, hash: string -> string)
    requires forall i :: 0 <= i < |entries| ==> entries[i].0 != "id"
    ensures forall p :: p in UpdateColumns(entries, hash) ==> p.0 != "id"
  {
    if entries != [] {
      var init := entries[..|entries| - 1];
      var last := entries[|entries| - 1];
      NoIdColumn(init, hash);
      assert UpdateColumns(entries, hash) == UpdateColumns(init, hash) + EntryColumn(last.0, last.1, hash);
    }
  }

  /** PUT /:id with a working connection, on the body's entries: validate
      (trimming the names), 404 for an unknown id, no statement at all when the
      SET list of the sanitized entries is empty, otherwise the UPDATE, which the
      database refuses when a column is unknown, the new key is taken, or a
      constraint would break. */
  function UpdateById(rows: StaffTable, id: int, entries: seq<(string, string)>, isEmail: string -> bool,
                      hash: string -> string, asInteger: string -> Option<int>): Result<StaffTable, Failure>
  {
    UpdateWith(rows, id, UpdateErrors(BodyOf(entries), isEmail), UpdateColumns(SanitizeEntries(entries), hash), asInteger)
  }

  /** The route's guards once the validators and the builder have run. */
  function UpdateWith(rows: StaffTable, id: int, errors: seq<Rule>, cols: seq<(string, string)>,
                      asInteger: string -> Option<int>): Result<StaffTable, Failure>
  {
    if errors != [] then Err(ValidationFailed(errors))
    else if id !in rows then Err(NotFound)
    else if cols == [] then Ok(rows)
    else RunUpdate(rows, id, cols, asInteger)
  }

  /** The `UPDATE … WHERE id = ?` statement itself, for a row that exists. */
  function RunUpdate(rows: StaffTable, id: int, cols: seq<(string, string)>, asInteger: string -> Option<int>)
    : Result<StaffTable, Failure>
    requires id in rows
  {
    var moved := ApplyColumns(id, rows[id], cols, asInteger);
    if moved.None? then Err(UpdateFailed)
    else
      var others := rows - {id};
      var after := others[moved.value.0 := moved.value.1];
      if moved.value.0 in others || !TableConstraints(after) then Err(UpdateFailed)
      else Ok(after)
  }

  /** A statement that runs rewrites only the row at `id`, whose key changes only
      through an `id` column, and keeps the constraints. */
  lemma RunUpdateFacts(rows: StaffTable, id: int, cols: seq<(string, string)>, asInteger: string -> Option<int>)
    requires id in rows
    ensures var r := RunUpdate(rows, id, cols, asInteger);
            && (r.Err? ==> r.error == UpdateFailed)
            && (r.Ok? ==> && TableConstraints(r.value)
                          && (exists k :: r.value.Keys == rows.Keys - {id} + {k})
                          && forall a :: a in rows && a != id ==> a in r.value && r.value[a] == rows[a])
            && (r.Ok? && (forall p :: p in cols ==> p.0 != "id") ==> r.value.Keys == rows.Keys)
  {
    var moved := ApplyColumns(id, rows[id], cols, asInteger);
    if moved.Some? && moved.value.0 !in rows - {id} {
      MoveRow(rows, id, moved.value.0, moved.value.1);
      if forall p :: p in cols ==> p.0 != "id" {
        ApplyColumnsKeepsKey(id, rows[id], cols, asInteger);
      }
    }
  }

  /** The corrected update succeeds only for a valid body and a known id, answers
      404 exactly for an unknown id (given a valid body), rewrites only that row
      (which keeps its key unless the body sets `id`), and never breaks the
      table's constraints. */
  lemma UpdateFacts(rows: StaffTable, id: int, entries: seq<(string, string)>, isEmail: string -> bool,
                    hash: string -> string, asInteger: string -> Option<int>)
    requires TableConstraints(rows)
    ensures var r := UpdateById(rows, id, entries, isEmail, hash, asInteger);
            && (r.Ok? ==> UpdateErrors(BodyOf(entries), isEmail) == [] && id in rows)
            && (UpdateErrors(BodyOf(entries), isEmail) == [] ==> (r == Err(NotFound) <==> id !in rows))
            && (r.Ok? ==> && TableConstraints(r.value)
                          && (exists k :: r.value.Keys == rows.Keys - {id} + {k})
                          && forall a :: a in rows && a != id ==> a in r.value && r.value[a] == rows[a])
            && (r.Ok? && UpdateColumns(SanitizeEntries(entries), hash) == [] ==> r.value == rows)
  {
    UpdateWithFacts(rows, id, UpdateErrors(BodyOf(entries), isEmail), UpdateColumns(SanitizeEntries(entries), hash), asInteger);
  }

  /** A successful update keeps every key unless the body sets `id`. */
  lemma UpdateKeepsKeys(rows: StaffTable, id: int, entries: seq<(string, string)>, isEmail: string -> bool,
                        hash: string -> string, asInteger: string -> Option<int>)
    requires TableConstraints(rows)
    requires forall i :: 0 <= i < |entries| ==> entries[i].0 != "id"
    ensures var r := UpdateById(rows, id, entries, isEmail, hash, asInteger);
            r.Ok? ==> r.value.Keys == rows.Keys
  {
    var cols := UpdateColumns(SanitizeEntries(entries), hash);
    NoIdInSanitized(entries, hash);
    UpdateWithFacts(rows, id, UpdateErrors(BodyOf(entries), isEmail), cols, asInteger);
  }

  /** The text columns of `staff_members`, read by name. */
  predicate TextColumn(c: string) {
    c in {"staff_id", "role", "first_name", "last_name", "email", "phone", "password_hash", "hire_date"}
  }

  function TextField(row: StaffRow, c: string): string {
    if c == "staff_id" then row.staffId
    else if c == "role" then row.role
    else if c == "first_name" then row.firstName
    else if c == "last_name" then row.lastName
    else if c == "email" then row.email
    else if c == "phone" then row.phone
    else if c == "password_hash" then row.passwordHash
    else if c == "hire_date" then row.hireDate
    else ""
  }

  /** The value the last SET entry for column `c` assigns, if any entry names it. */
  function LastValue(cols: seq<(string, string)>, c: string): (v: Option<string>)
    ensures v.Some? ==> (c, v.value) in cols
    decreases |cols|
  {
    if cols == [] then None
    else
      var rest := LastValue(cols[1..], c);
      if rest.Some? then rest else if cols[0].0 == c then Some(cols[0].1) else None
  }

  lemma {:induction false} LastValueAppend(xs: seq<(string, string)>, ys: seq<(string, string)>, c: string)
    ensures LastValue(xs + ys, c) == if LastValue(ys, c).Some? then LastValue(ys, c) else LastValue(xs, c)
    decreases |xs|
  {
    if xs == [] {
      assert xs + ys == ys;
    } else {
      assert (xs + ys)[1..] == xs[1..] + ys;
      LastValueAppend(xs[1..], ys, c);
    }
  }

  /** One SET entry other than `id` changes a text column only when it names it. */
  lemma SetColumnText(key: int, row: StaffRow, column: string, value: string, asInteger: string -> Option<int>, c: string)
    requires column != "id" && TextColumn(c)
    ensures var next := SetColumn(key, row, column, value, asInteger);
            next.Some? ==> next.value.0 == key && TextField(next.value.1, c) == if column == c then value else TextField(row, c)
  {
  }

  /** Without an `id` column, each text column ends up holding the last value the
      SET list gives it, or its old value when the list does not name it. */
  lemma {:induction false} ApplyColumnsText(key: int, row: StaffRow, cols: seq<(string, string)>,
                                            asInteger: string -> Option<int>, c: string)
    requires forall p :: p in cols ==> p.0 != "id"
    requires TextColumn(c)
    ensures var moved := ApplyColumns(key, row, cols, asInteger);
            moved.Some? ==> TextField(moved.value.1, c) == if LastValue(cols, c).Some? then LastValue(cols, c).value else TextField(row, c)
    decreases |cols|
  {
    if cols != [] {
      assert cols[0] in cols;
      var next := SetColumn(key, row, cols[0].0, cols[0].1, asInteger);
      SetColumnText(key, row, cols[0].0, cols[0].1, asInteger, c);
      if next.Some? {
        assert forall p :: p in cols[1..] ==> p in cols;
        ApplyColumnsText(next.value.0, next.value.1, cols[1..], asInteger, c);
      }
    }
  }

  /** For a key other than `password` that no other key of the entries shares a
      column with, the SET list's last value for its column is the body's value. */
  lemma {:induction false} ColumnsCarryBody(entries: seq<(string, string)>, hash: string -> string, k: string)
    requires k != "password" && ColumnOf(k) != "password_hash"
    requires forall i :: 0 <= i < |entries| && ColumnOf(entries[i].0) == ColumnOf(k) ==> entries[i].0 == k
    ensures LastValue(UpdateColumns(entries, hash), ColumnOf(k)) == if k in BodyOf(entries) then Some(BodyOf(entries)[k]) else None
  {
    if entries != [] {
      var init := entries[..|entries| - 1];
      var last := entries[|entries| - 1];
      assert forall i :: 0 <= i < |init| ==> init[i] == entries[i];
      ColumnsCarryBody(init, hash, k);
      LastValueAppend(UpdateColumns(init, hash), EntryColumn(last.0, last.1, hash), ColumnOf(k));
      EntryColumnShape(last.0, last.1, hash);
      var tail := EntryColumn(last.0, last.1, hash);
      if last.0 == k {
        assert LastValue(tail, ColumnOf(k)) == Some(last.1) by {
          assert tail[1..] == [];
        }
      } else {
        assert LastValue(tail, ColumnOf(k)).None? by {
          if tail != [] {
            assert tail[1..] == [];
          }
        }
      }
    }
  }

  /** A successful update writes the body into the row: each text column a body
      key names (role, the names, email, phone, and `staff_id` or `hire_date`
      given under their own names) holds the body's value, the names trimmed,
      or keeps its old value when the body does not carry that key. The key must
      not share its column with another key of the body (a body may also name
      `first_name` itself), and the body must not set `id`. */
  lemma UpdateWritesBody(rows: StaffTable, id: int, entries: seq<(string, string)>, isEmail: string -> bool,
                         hash: string -> string, asInteger: string -> Option<int>, k: string)
    requires TableConstraints(rows)
    requires k != "password" && TextColumn(ColumnOf(k)) && ColumnOf(k) != "password_hash"
    requires forall i :: 0 <= i < |entries| ==> entries[i].0 != "id"
    requires forall i :: 0 <= i < |entries| && ColumnOf(entries[i].0) == ColumnOf(k) ==> entries[i].0 == k
    ensures var r := UpdateById(rows, id, entries, isEmail, hash, asInteger);
            var body := BodyOf(entries);
            r.Ok? ==> && id in r.value
                      && TextField(r.value[id], ColumnOf(k))
                         == if k !in body then TextField(rows[id], ColumnOf(k))
                            else if k == "firstName" || k == "lastName" then Trim(body[k]) else body[k]
  {
    var body := BodyOf(entries);
    var cols := UpdateColumns(SanitizeEntries(entries), hash);
    NoIdInSanitized(entries, hash);
    UpdateWithText(rows, id, UpdateErrors(body, isEmail), cols, asInteger, ColumnOf(k));
    BodyColumn(entries, hash, k);
    SanitizedValue(body, k);
  }

  /** The SET list built from the sanitized entries gives a key's column the
      sanitized body's value. */
  lemma BodyColumn(entries: seq<(string, string)>, hash: string -> string, k: string)
    requires k != "password" && ColumnOf(k) != "password_hash"
    requires forall i :: 0 <= i < |entries| && ColumnOf(entries[i].0) == ColumnOf(k) ==> entries[i].0 == k
    ensures LastValue(UpdateColumns(SanitizeEntries(entries), hash), ColumnOf(k))
            == if k in BodyOf(entries) then Some(Sanitize(BodyOf(entries))[k]) else None
  {
    var clean := SanitizeEntries(entries);
    assert forall i :: 0 <= i < |clean| ==> clean[i].0 == entries[i].0;
    ColumnsCarryBody(clean, hash, k);
    SanitizeEntriesBody(entries);
  }

  /** The statement's effect on one text column, for any SET list without `id`. */
  lemma UpdateWithText(rows: StaffTable, id: int, errors: seq<Rule>, cols: seq<(string, string)>,
                       asInteger: string -> Option<int>, c: string)
    requires forall p :: p in cols ==> p.0 != "id"
    requires TextColumn(c)
    ensures var r := UpdateWith(rows, id, errors, cols, asInteger);
            r.Ok? ==> && id in r.value
                      && TextField(r.value[id], c) == if LastValue(cols, c).Some? then LastValue(cols, c).value else TextField(rows[id], c)
  {
    var r := UpdateWith(rows, id, errors, cols, asInteger);
    if r.Ok? && cols != [] {
      var moved := ApplyColumns(id, rows[id], cols, asInteger);
      ApplyColumnsKeepsKey(id, rows[id], cols, asInteger);
      ApplyColumnsText(id, rows[id], cols, asInteger, c);
      assert r.value == (rows - {id})[id := moved.value.1];
    }
  }

  /** The sanitized body's value for a key: the names trimmed, the rest as sent. */
  lemma SanitizedValue(body: Body, k: string)
    ensures k in Sanitize(body) <==> k in body
    ensures k in body ==> Sanitize(body)[k] == if k == "firstName" || k == "lastName" then Trim(body[k]) else body[k]
  {
    if k in body {
      assert Field(Sanitize(body), k) == Sanitize(body)[k];
    }
  }

  /** The guards and the statement, for any validation outcome and SET list. */
  lemma UpdateWithFacts(rows: StaffTable, id: int, errors: seq<Rule>, cols: seq<(string, string)>,
                        asInteger: string -> Option<int>)
    requires TableConstraints(rows)
    ensures var r := UpdateWith(rows, id, errors, cols, asInteger);
            && (r.Ok? ==> errors == [] && id in rows)
            && (errors == [] ==> (r == Err(NotFound) <==> id !in rows))
            && (r.Ok? ==> && TableConstraints(r.value)
                          && (exists k :: r.value.Keys == rows.Keys - {id} + {k})
                          && forall a :: a in rows && a != id ==> a in r.value && r.value[a] == rows[a])
            && (r.Ok? && (forall p :: p in cols ==> p.0 != "id") ==> r.value.Keys == rows.Keys)
            && (r.Ok? && cols == [] ==> r.value == rows)
  {
    var r := UpdateWith(rows, id, errors, cols, asInteger);
    if r.Ok? && cols == [] {
      assert r.value.Keys == rows.Keys - {id} + {id};
    } else if r.Ok? {
      RunUpdateFacts(rows, id, cols, asInteger);
      var k := RunUpdateKey(rows, id, cols, asInteger);
      assert r.value.Keys == rows.Keys - {id} + {k};
    }
  }

  lemma NoIdInSanitized(entries: seq<(string, string)>, hash: string -> string)
    requires forall i :: 0 <= i < |entries| ==> entries[i].0 != "id"
    ensures forall p :: p in UpdateColumns(SanitizeEntries(entries), hash) ==> p.0 != "id"
  {
    var clean := SanitizeEntries(entries);
    assert forall i :: 0 <= i < |clean| ==> clean[i].0 != "id";
    NoIdColumn(clean, hash);
  }

  /** The key the row has after a statement that runs. */
  lemma RunUpdateKey(rows: StaffTable, id: int, cols: seq<(string, string)>, asInteger: string -> Option<int>)
    returns (k: int)
    requires id in rows
    ensures var r := RunUpdate(rows, id, cols, asInteger);
            r.Ok? ==> r.value.Keys == rows.Keys - {id} + {k}
  {
    var moved := ApplyColumns(id, rows[id], cols, asInteger);
    k := if moved.Some? then moved.value.0 else id;
    if moved.Some? && moved.value.0 !in rows - {id} {
      MoveRow(rows, id, moved.value.0, moved.value.1);
    }
  }

  /** Taking the row at `id` out and putting `row` in at a free key `k`. */
  lemma MoveRow(rows: StaffTable, id: int, k: int, row: StaffRow)
    requires id in rows && k !in rows - {id}
    ensures var after := (rows - {id})[k := row];
            && after.Keys == rows.Keys - {id} + {k}
            && (k == id ==> after.Keys == rows.Keys)
            && forall a :: a in rows && a != id ==> a in after && after[a] == rows[a]
  {
  }
}
