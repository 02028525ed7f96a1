/** The React staff dialog (frontend/src/components/StaffModal.js): the form's
    initial values, `handleChange`, `validateForm` and `handleSubmit`. */
module StaffModal {
  import opened Wrappers
  import opened JsStrings
  import opened FormRules

  datatype Field = Role | FirstName | LastName | Email | Phone | Password

  datatype FormData = FormData(role: string, firstName: string, lastName: string, email: string, phone: string, password: string)
  {
    function Get(f: Field): string {
      match f
      case Role => role
      case FirstName => firstName
      case LastName => lastName
      case Email => email
      case Phone => phone
      case Password => password
    }

    /** `{ ...prev, [name]: value }`. */
    function With(f: Field, value: string): (r: FormData)
      ensures r.Get(f) == value
      ensures forall g :: g != f ==> r.Get(g) == Get(g)
    {
      match f
      case Role => this.(role := value)
      case FirstName => this.(firstName := value)
      case LastName => this.(lastName := value)
      case Email => this.(email := value)
      case Phone => this.(phone := value)
      case Password => this.(password := value)
    }
  }

  const BlankForm := FormData("", "", "", "", "", "")

  /** The record the dialog is opened with; a missing column is `None`. */
  datatype StaffView = StaffView(role: Option<string>, firstName: Option<string>, lastName: Option<string>, email: Option<string>, phone: Option<string>)

  /** `value || ''`. */
  function OrEmpty(v: Option<string>): string {
    v.GetOr("")
  }

  /** The effect run when the dialog opens: a record's fields with an empty password,
      or every field blank. The error map is cleared either way. */
  function InitForm(staff: Option<StaffView>): (r: (FormData, map<Field, string>))
    ensures r.1 == map[]
    ensures r.0.password == ""
    ensures staff.None? ==> forall f :: r.0.Get(f) == ""
    ensures staff.Some? ==> && (staff.value.role.Some? ==> r.0.role == staff.value.role.value)
                            && (staff.value.firstName.Some? ==> r.0.firstName == staff.value.firstName.value)
                            && (staff.value.lastName.Some? ==> r.0.lastName == staff.value.lastName.value)
                            && (staff.value.email.Some? ==> r.0.email == staff.value.email.value)
                            && (staff.value.phone.Some? ==> r.0.phone == staff.value.phone.value)
    ensures forall f :: r.0.Get(f) != "" ==> staff.Some? && f != Password
  {
    match staff
    case None => (BlankForm, map[])
    case Some(s) =>
      (FormData(OrEmpty(s.role), OrEmpty(s.firstName), OrEmpty(s.lastName), OrEmpty(s.email), OrEmpty(s.phone), ""), map[])
  }

  /** `handleChange`: set the named field; when that field has a non-empty error,
      replace it with ''. */
  function HandleChange(form: FormData, errors: map<Field, string>, name: Field, value: string): (r: (FormData, map<Field, string>))
    ensures r.0.Get(name) == value
    ensures forall g :: g != name ==> r.0.Get(g) == form.Get(g)
    ensures forall g :: g != name ==> (g in r.1 <==> g in errors) && (g in errors ==> r.1[g] == errors[g])
    ensures name in r.1 <==> name in errors
    ensures name in r.1 ==> r.1[name] == ""
  {
    var errors' := if name in errors && errors[name] != "" then errors[name := ""] else errors;
    (form.With(name, value), errors')
  }

  /** The accepted forms, stated field by field: a role, first and last names of at
      least two characters after trimming, an email and a phone that are not blank
      and match their patterns, and a password that is either left blank while
      editing or has at least six characters after trimming. */
  predicate FormValid(form: FormData, editing: bool) {
    && Trim(form.role) != ""
    && |Trim(form.firstName)| >= 2
    && |Trim(form.lastName)| >= 2
    && Trim(form.email) != "" && IsEmailShape(form.email)
    && Trim(form.phone) != "" && IsPhone(form.phone)
    && (if editing then Trim(form.password) == "" || |Trim(form.password)| >= 6 else |Trim(form.password)| >= 6)
  }

  /** The message `validateForm` records for one field, if any. */
  function FieldError(form: FormData, editing: bool, f: Field): (e: Option<string>)
  {
    match f
    case Role => if Trim(form.role) == "" then Some("Role is required") else None
    case FirstName =>
      var t := Trim(form.firstName);
      if t == "" then Some("First name is required")
      else if |t| < 2 then Some("First name must be at least 2 characters") else None
    case LastName =>
      var t := Trim(form.lastName);
      if t == "" then Some("Last name is required")
      else if |t| < 2 then Some("Last name must be at least 2 characters") else None
    case Email =>
      if Trim(form.email) == "" then Some("Email is required")
      else if !IsEmailShape(form.email) then Some("Please enter a valid email address") else None
    case Phone =>
      if Trim(form.phone) == "" then Some("Phone number is required")
      else if !IsPhone(form.phone) then Some("Please enter a valid phone number") else None
    case Password =>
      var t := Trim(form.password);
      if !editing && t == "" then Some("Password is required for new staff members")
      else if t != "" && |t| < 6 then Some("Password must be at least 6 characters long") else None
  }

  /** `if (…) newErrors.f = message`. */
  function Record(errors: map<Field, string>, f: Field, e: Option<string>): map<Field, string> {
    if e.Some? then errors[f := e.value] else errors
  }

  /** `validateForm`: fills a fresh error map field by field (`editing` is whether a
      record was passed in) and reports whether it stayed empty. */
  method ValidateForm(form: FormData, editing: bool) returns (errors: map<Field, string>, ok: bool)
    ensures ok <==> errors == map[]
    ensures ok <==> FormValid(form, editing)
    ensures forall f :: f in errors <==> FieldError(form, editing, f).Some?
    ensures forall f :: f in errors ==> errors[f] == FieldError(form, editing, f).value
  {
    errors := map[];
    errors := Record(errors, Role, FieldError(form, editing, Role));
    errors := Record(errors, FirstName, FieldError(form, editing, FirstName));
    errors := Record(errors, LastName, FieldError(form, editing, LastName));
    errors := Record(errors, Email, FieldError(form, editing, Email));
    errors := Record(errors, Phone, FieldError(form, editing, Phone));
    errors := Record(errors, Password, FieldError(form, editing, Password));
    RecordEveryField(form, editing, errors);
    ok := |errors.Keys| == 0;
    NoErrorsIffValid(form, editing, errors);
  }

  /** Recording each field's check once, in order, keeps exactly the failed checks. */
  lemma RecordEveryField(form: FormData, editing: bool, errors: map<Field, string>)
    requires errors == Record(Record(Record(Record(Record(Record(map[],
               Role, FieldError(form, editing, Role)), FirstName, FieldError(form, editing, FirstName)),
               LastName, FieldError(form, editing, LastName)), Email, FieldError(form, editing, Email)),
               Phone, FieldError(form, editing, Phone)), Password, FieldError(form, editing, Password))
    ensures forall f :: f in errors <==> FieldError(form, editing, f).Some?
    ensures forall f :: f in errors ==> errors[f] == FieldError(form, editing, f).value
  {
    var e1, e2, e3 := FieldError(form, editing, Role), FieldError(form, editing, FirstName), FieldError(form, editing, LastName);
    var e4, e5, e6 := FieldError(form, editing, Email), FieldError(form, editing, Phone), FieldError(form, editing, Password);
    RecordSix(e1, e2, e3, e4, e5, e6, errors);
    forall f
      ensures f in errors <==> FieldError(form, editing, f).Some?
      ensures f in errors ==> errors[f] == FieldError(form, editing, f).value
    {
      match f
      case Role =>
      case FirstName =>
      case LastName =>
      case Email =>
      case Phone =>
      case Password =>
    }
  }

  lemma RecordSix(e1: Option<string>, e2: Option<string>, e3: Option<string>, e4: Option<string>, e5: Option<string>, e6: Option<string>, errors: map<Field, string>)
    requires errors == Record(Record(Record(Record(Record(Record(map[],
               Role, e1), FirstName, e2), LastName, e3), Email, e4), Phone, e5), Password, e6)
    ensures (Role in errors <==> e1.Some?) && (Role in errors ==> errors[Role] == e1.value)
    ensures (FirstName in errors <==> e2.Some?) && (FirstName in errors ==> errors[FirstName] == e2.value)
    ensures (LastName in errors <==> e3.Some?) && (LastName in errors ==> errors[LastName] == e3.value)
    ensures (Email in errors <==> e4.Some?) && (Email in errors ==> errors[Email] == e4.value)
    ensures (Phone in errors <==> e5.Some?) && (Phone in errors ==> errors[Phone] == e5.value)
    ensures (Password in errors <==> e6.Some?) && (Password in errors ==> errors[Password] == e6.value)
  {
  }

  /** The error map is empty exactly when the form is valid. */
  lemma NoErrorsIffValid(form: FormData, editing: bool, errors: map<Field, string>)
    requires forall f :: f in errors <==> FieldError(form, editing, f).Some?
    ensures |errors.Keys| == 0 <==> errors == map[]
    ensures errors == map[] <==> FormValid(form, editing)
  {
    FieldErrorsMatchValid(form, editing);
    if errors == map[] {
      assert forall f :: f !in errors;
    } else {
      var f :| f in errors;
      assert FieldError(form, editing, f).Some?;
    }
    if |errors.Keys| == 0 {
      assert errors.Keys == {};
    }
  }

  /** A form is valid exactly when no field has an error message. */
  lemma FieldErrorsMatchValid(form: FormData, editing: bool)
    ensures FormValid(form, editing) <==> forall f :: FieldError(form, editing, f).None?
  {
    if FormValid(form, editing) {
      forall f ensures FieldError(form, editing, f).None? {
        match f
        case Role =>
        case FirstName =>
        case LastName =>
        case Email =>
        case Phone =>
        case Password =>
      }
    } else {
      if Trim(form.role) == "" { assert FieldError(form, editing, Role).Some?; }
      else if |Trim(form.firstName)| < 2 { assert FieldError(form, editing, FirstName).Some?; }
      else if |Trim(form.lastName)| < 2 { assert FieldError(form, editing, LastName).Some?; }
      else if Trim(form.email) == "" || !IsEmailShape(form.email) { assert FieldError(form, editing, Email).Some?; }
      else if Trim(form.phone) == "" || !IsPhone(form.phone) { assert FieldError(form, editing, Phone).Some?; }
      else { assert FieldError(form, editing, Password).Some?; }
    }
  }

  /** The messages, field by field: a blank value is reported as missing before it is
      reported as malformed. */
  lemma ErrorMessages(form: FormData, editing: bool)
    ensures FieldError(form, editing, Role).Some? <==> Trim(form.role) == ""
    ensures FieldError(form, editing, FirstName).Some? <==> |Trim(form.firstName)| < 2
    ensures FieldError(form, editing, LastName).Some? <==> |Trim(form.lastName)| < 2
    ensures FieldError(form, editing, Email).Some? <==> Trim(form.email) == "" || !IsEmailShape(form.email)
    ensures FieldError(form, editing, Phone).Some? <==> Trim(form.phone) == "" || !IsPhone(form.phone)
    ensures FieldError(form, editing, Password).Some? <==>
              if editing then Trim(form.password) != "" && |Trim(form.password)| < 6 else |Trim(form.password)| < 6
    ensures Trim(form.email) == "" ==> FieldError(form, editing, Email) == Some("Email is required")
    ensures Trim(form.phone) != "" && !IsPhone(form.phone) ==> FieldError(form, editing, Phone) == Some("Please enter a valid phone number")
  {
  }

  /** `handleSubmit`: the form goes to `onSubmit` only when it validates. */
  method HandleSubmit(form: FormData, editing: bool) returns (submitted: Option<FormData>)
    ensures submitted.Some? <==> FormValid(form, editing)
    ensures submitted.Some? ==> submitted.value == form
  {
    var _, ok := ValidateForm(form, editing);
    submitted := if ok then Some(form) else None;
  }

  /** A blank password stops a creation and never stops an edit: an edit with it
      passes exactly when the same form with a real password would. */
  lemma BlankPasswordRule(form: FormData, strong: string)
    requires Trim(form.password) == "" && |Trim(strong)| >= 6
    ensures !FormValid(form, false)
    ensures FormValid(form, true) <==> FormValid(form.(password := strong), true)
  {
  }
}
