/** The plain-script staff page (js/staff.js): which record the form edits, the
    checks `handleFormSubmit` makes before it sends anything and the request it
    sends, and the checks of `handlePasswordReset`. */
module StaffPage {
  import opened Wrappers
  import opened JsStrings
  import opened FormRules

  /** `currentEditingId` and `userHasModifiedUsername`. A record id of 0 would be
      falsy, so the page treats it like no record at all. */
  class FormState {
    var currentEditingId: Option<int>
    var userHasModifiedUsername: bool

    constructor ()
      ensures currentEditingId == None && !userHasModifiedUsername
    {
      currentEditingId := None;
      userHasModifiedUsername := false;
    }

    /** `!!currentEditingId`. */
    predicate Editing()
      reads this
    {
      currentEditingId.Some? && currentEditingId.value != 0
    }

    /** `showAddForm`: no record is edited and the username counts as untouched. */
    method ShowAddForm()
      modifies this
      ensures currentEditingId == None && !userHasModifiedUsername
      ensures !Editing()
    {
      currentEditingId := None;
      userHasModifiedUsername := false;
    }

    /** `showEditForm(staff)`: the form now edits that record. */
    method ShowEditForm(id: int)
      modifies this
      ensures currentEditingId == Some(id) && !userHasModifiedUsername
      ensures Editing() <==> id != 0
    {
      currentEditingId := Some(id);
      userHasModifiedUsername := false;
    }

    /** `hideForm`: forgets the edited record and leaves the username flag alone. */
    method HideForm()
      modifies this
      ensures currentEditingId == None && !Editing()
      ensures userHasModifiedUsername == old(userHasModifiedUsername)
    {
      currentEditingId := None;
    }
  }

  datatype Field = Role | FirstName | LastName | Email | Phone | Password

  /** The raw values of the form's inputs. */
  datatype StaffForm = StaffForm(role: string, firstName: string, lastName: string, username: string, email: string, phone: string, password: string)
  {
    function Get(f: Field): string {
      match f
      case Role => role
      case FirstName => firstName
      case LastName => lastName
      case Email => email
      case Phone => phone
      case Password => password
    }
  }

  datatype Request = Request(verb: string, path: string, body: map<string, string>)

  const UsernameRequired := "Username is required and cannot be empty"
  const FillAllFields := "Please fill in all required fields"
  const PasswordTooShort := "Password must be at least 6 characters long"
  const UsernameChars := "Username can only contain letters, numbers, and underscores"
  const PasswordsDiffer := "Passwords do not match"

  const AlwaysRequired: seq<Field> := [Role, FirstName, LastName, Email, Phone]

  /** `requiredFields`: the five always-required inputs, then the password when creating. */
  function RequiredFields(creating: bool): (fields: seq<Field>)
    ensures |fields| == if creating then 6 else 5
    ensures fields[..5] == AlwaysRequired
    ensures creating ==> fields[5] == Password
  {
    AlwaysRequired + (if creating then [Password] else [])
  }

  /** The loop's test for one field: empty, or a password shorter than six. */
  predicate Fails(form: StaffForm, f: Field) {
    form.Get(f) == "" || (f == Password && |form.Get(f)| < 6)
  }

  /** Some always-required input is empty. */
  predicate AnyBlank(form: StaffForm) {
    form.role == "" || form.firstName == "" || form.lastName == "" || form.email == "" || form.phone == ""
  }

  /** The JSON body: the trimmed username, the other fields as typed, and the
      password only when creating. */
  function RequestBody(form: StaffForm, creating: bool): (body: map<string, string>)
    ensures "password" in body <==> creating
    ensures creating ==> body["password"] == form.password
    ensures body.Keys >= {"role", "firstName", "lastName", "username", "email", "phone"}
    ensures body["username"] == Trim(form.username)
  {
    var base := map["role" := form.role, "firstName" := form.firstName, "lastName" := form.lastName,
                    "username" := Trim(form.username), "email" := form.email, "phone" := form.phone];
    if creating then base["password" := form.password] else base
  }

  /** `!currentEditingId`. */
  predicate Creating(editingId: Option<int>) {
    editingId.None? || editingId.value == 0
  }

  /** `handleFormSubmit` up to the request: the checks in their order, then POST to
      `/staff` when creating or PUT to `/staff/{id}` when editing. */
  method HandleFormSubmit(form: StaffForm, editingId: Option<int>) returns (r: Result<Request, string>)
    ensures Trim(form.username) == "" ==> r == Err(UsernameRequired)
    ensures Trim(form.username) != "" && AnyBlank(form) ==> r == Err(FillAllFields)
    ensures (Trim(form.username) != "" && !AnyBlank(form) && Creating(editingId) && |form.password| < 6)
              ==> r == Err(PasswordTooShort)
    ensures r.Ok? <==> && IsUsername(Trim(form.username)) && !AnyBlank(form)
                       && (Creating(editingId) ==> |form.password| >= 6)
    ensures (r.Err? && Trim(form.username) != "" && !AnyBlank(form) && !(Creating(editingId) && |form.password| < 6))
              ==> r == Err(UsernameChars)
    ensures r.Ok? ==> r.value == Request(if Creating(editingId) then "POST" else "PUT",
                                         if Creating(editingId) then "/staff" else "/staff/" + IntToString(editingId.value),
                                         RequestBody(form, Creating(editingId)))
  {
    var creating := Creating(editingId);
    var username := Trim(form.username);
    if username == "" {
      return Err(UsernameRequired);
    }
    var missing := CheckRequired(form, creating);
    if missing.Some? {
      return Err(missing.value);
    }
    if !IsUsername(username) {
      return Err(UsernameChars);
    }
    var verb := if creating then "POST" else "PUT";
    var path := if creating then "/staff" else "/staff/" + IntToString(editingId.value);
    return Ok(Request(verb, path, RequestBody(form, creating)));
  }

  /** The `for (const field of requiredFields)` loop: the first field that fails
      stops it, with the password's own message or the generic one. */
  method CheckRequired(form: StaffForm, creating: bool) returns (err: Option<string>)
    ensures AnyBlank(form) ==> err == Some(FillAllFields)
    ensures !AnyBlank(form) && creating && |form.password| < 6 ==> err == Some(PasswordTooShort)
    ensures err.None? <==> !AnyBlank(form) && (creating ==> |form.password| >= 6)
  {
    var required := RequiredFields(creating);
    var i := 0;
    while i < |required|
      invariant 0 <= i <= |required|
      invariant forall k :: 0 <= k < i ==> !Fails(form, required[k])
    {
      var field := required[i];
      if Fails(form, field) {
        if field == Password {
          PassedFive(form, required, i);
          return Some(PasswordTooShort);
        }
        FailedOneOfFive(form, required, i);
        return Some(FillAllFields);
      }
      i := i + 1;
    }
    PassedFive(form, required, i);
    assert creating ==> !Fails(form, required[5]);
    return None;
  }

  lemma PassedFive(form: StaffForm, required: seq<Field>, i: nat)
    requires 5 <= i <= |required| && required[..5] == AlwaysRequired
    requires forall k :: 0 <= k < i ==> !Fails(form, required[k])
    ensures !AnyBlank(form)
  {
    assert required[0] == Role && required[1] == FirstName && required[2] == LastName;
    assert required[3] == Email && required[4] == Phone;
    assert !Fails(form, required[0]) && !Fails(form, required[1]) && !Fails(form, required[2]);
    assert !Fails(form, required[3]) && !Fails(form, required[4]);
  }

  lemma FailedOneOfFive(form: StaffForm, required: seq<Field>, i: nat)
    requires i < |required| && 5 <= |required| && required[..5] == AlwaysRequired
    requires (i < 5 || required[i] != Password) && Fails(form, required[i])
    requires |required| <= 6 && (|required| == 6 ==> required[5] == Password)
    ensures AnyBlank(form)
  {
    assert required[i] == AlwaysRequired[i];
  }

  /** `${id}` for an integer. */
  function IntToString(n: int): (s: string)
    ensures |s| >= 1
  {
    if n < 0 then "-" + NatToDecimal(-n) else NatToDecimal(n)
  }

  /** `handlePasswordReset` up to the request: a short password, then a mismatched
      confirmation, are refused before anything is sent. */
  function PasswordResetRequest(staffId: string, newPassword: string, confirmPassword: string): (r: Result<Request, string>)
    ensures |newPassword| < 6 ==> r == Err(PasswordTooShort)
    ensures |newPassword| >= 6 && newPassword != confirmPassword ==> r == Err(PasswordsDiffer)
    ensures r.Ok? <==> |newPassword| >= 6 && newPassword == confirmPassword
    ensures r.Ok? ==> r.value.verb == "POST" && r.value.body == map["newPassword" := newPassword]
  {
    if |newPassword| < 6 then Err(PasswordTooShort)
    else if newPassword != confirmPassword then Err(PasswordsDiffer)
    else Ok(Request("POST", "/staff/" + staffId + "/reset-password", map["newPassword" := newPassword]))
  }
}
