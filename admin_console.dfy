/** The back-office script (js/admin.js): the session and its token age, the
    staff list's filter view, the add-staff form's checks and the password-reset
    prompt, with what the storefront server makes of the requests they send. */
module AdminConsole {
  import opened Wrappers
  import opened JsStrings
  import opened StaffFilter
  import JsonStaffDirectory
  import JsonOrders

  // ---------------------------------------------------------------- token age

  /** 24 hours in milliseconds. */
  const MaxAge := 24 * 60 * 60 * 1000

  /** `parseInt(authToken.split('-')[2])`: `None` is `NaN`, which a missing third
      field also gives. */
  function TokenTime(token: string): Option<int> {
    var parts := Split(token, '-');
    if |parts| < 3 then None else ParseInt(parts[2])
  }

  /** `isTokenExpired` as written: a missing or empty token is expired; otherwise
      `Date.now() - tokenTime > maxAge`, which is false when `tokenTime` is `NaN`. */
  function TokenExpiredAsWritten(token: Option<string>, now: int): (r: bool)
    ensures token.None? ==> r
    ensures token.Some? && TokenTime(token.value).None? && token.value != "" ==> !r
  {
    if token.None? || token.value == "" then true
    else
      var t := TokenTime(token.value);
      t.Some? && now - t.value > MaxAge
  }

  /** The intent shown by the `catch` that answers `true`: a token whose time
      cannot be read counts as expired. */
  function TokenExpired(token: Option<string>, now: int): (r: bool)
    ensures token.Some? && TokenTime(token.value).None? ==> r
  {
    if token.None? || token.value == "" then true
    else
      var t := TokenTime(token.value);
      t.None? || now - t.value > MaxAge
  }

  /** The two readings differ exactly on tokens whose time cannot be read. */
  lemma TokenExpiryReadings(token: Option<string>, now: int)
    ensures TokenExpiredAsWritten(token, now) != TokenExpired(token, now)
            <==> token.Some? && token.value != "" && TokenTime(token.value).None?
  {
  }

  /** A token without a third `-` field never expires as written. */
  lemma UnreadableTokenNeverExpires(now: int)
    ensures !TokenExpiredAsWritten(Some("admin"), now)
    ensures TokenExpired(Some("admin"), now)
  {
    SplitNoSep("admin", '-');
  }

  lemma {:induction false} SplitNoSep(s: string, sep: char)
    requires sep !in s
    ensures Split(s, sep) == [s]
  {
    if s != [] {
      assert s[0] in s;
      assert forall c :: c in s[1..] ==> c in s;
      SplitNoSep(s[1..], sep);
      assert [s[0]] + s[1..] == s;
    }
  }

  lemma {:induction false} SplitAfter(a: string, sep: char, b: string)
    requires sep !in a
    ensures Split(a + [sep] + b, sep) == [a] + Split(b, sep)
  {
    var s := a + [sep] + b;
    if a == [] {
      assert s == [sep] + b && s[1..] == b;
    } else {
      assert a[0] in a;
      assert forall c :: c in a[1..] ==> c in a;
      SplitAfter(a[1..], sep, b);
      assert s[0] == a[0] && s[1..] == a[1..] + [sep] + b;
      assert [a[0]] + a[1..] == a;
    }
  }

  /** The token the storefront server issues at sign-in carries its issue time:
      it is expired exactly when more than 24 hours have passed since. */
  lemma LoginTokenExpiry(username: Option<string>, password: Option<string>, issued: nat, now: int)
    requires JsonOrders.Login(username, password, issued).Ok?
    ensures var token := JsonOrders.Login(username, password, issued).value;
            && TokenTime(token) == Some(issued)
            && (TokenExpiredAsWritten(Some(token), now) <==> now - issued > MaxAge)
            && (TokenExpired(Some(token), now) <==> now - issued > MaxAge)
  {
    var token := JsonOrders.Login(username, password, issued).value;
    var d := token[12..];
    assert token == token[..12] + d;
    assert token[..12] == "admin" + ['-'] + "token" + ['-'];
    assert token == "admin" + ['-'] + ("token" + ['-'] + d);
    assert '-' !in d;
    SplitAfter("admin", '-', "token" + ['-'] + d);
    SplitAfter("token", '-', d);
    SplitNoSep(d, '-');
    ParseIntOfDigits(d);
  }

  // ---------------------------------------------------------------- the session

  /** What the login reply's `user` object is reduced to. */
  datatype AdminUser = AdminUser(id: int, username: string, role: string)

  /** The globals `authToken` and `currentUser` and their `localStorage` copies. */
  class AdminSession {
    var authToken: Option<string>
    var currentUser: Option<AdminUser>
    var storedToken: Option<string>
    var storedUser: Option<AdminUser>

    /** On load the globals are read from storage. */
    constructor (storedToken: Option<string>, storedUser: Option<AdminUser>)
      ensures authToken == storedToken && currentUser == storedUser
      ensures this.storedToken == storedToken && this.storedUser == storedUser
    {
      authToken, currentUser := storedToken, storedUser;
      this.storedToken, this.storedUser := storedToken, storedUser;
    }

    /** `checkAuthentication` as written: the dashboard shows with a token, a
      user and a token that `isTokenExpired` does not reject; a token whose time
      cannot be read is not rejected, so it shows the dashboard whatever its age. */
    method IsAuthenticated(now: int) returns (b: bool)
      ensures b ==> authToken.Some? && authToken.value != "" && currentUser.Some?
      ensures b && TokenTime(authToken.value).Some? ==> now - TokenTime(authToken.value).value <= MaxAge
      ensures (authToken.Some? && authToken.value != "" && currentUser.Some?
               && TokenTime(authToken.value).None?) ==> b
      ensures (authToken.Some? && currentUser.Some? && TokenTime(authToken.value).Some?
               && now - TokenTime(authToken.value).value <= MaxAge) ==> b
    {
      b := authToken.Some? && authToken.value != "" && currentUser.Some? && !TokenExpiredAsWritten(authToken, now);
    }

    /** `checkAuthentication` as its `catch` intends: the dashboard shows only
      with a user and a token issued at a readable time at most 24 hours ago. */
    method IsAuthenticatedIntended(now: int) returns (b: bool)
      ensures b <==> authToken.Some? && currentUser.Some? && TokenTime(authToken.value).Some?
                     && now - TokenTime(authToken.value).value <= MaxAge
    {
      b := authToken.Some? && authToken.value != "" && currentUser.Some? && !TokenExpired(authToken, now);
      if authToken.Some? && authToken.value == "" {
        EmptyTokenUnreadable();
      }
    }

    /** `handleLogin`: a successful reply is kept in memory and in storage; a
      failed one shows its message (or `Login failed`) and keeps the state. */
    method SignIn(reply: Result<(string, AdminUser), Option<string>>) returns (err: Option<string>)
      modifies this
      ensures reply.Ok? ==> err.None? && authToken == storedToken == Some(reply.value.0)
                            && currentUser == storedUser == Some(reply.value.1)
      ensures reply.Err? ==> err == Some(if reply.error.Some? && reply.error.value != "" then reply.error.value else "Login failed")
                             && authToken == old(authToken) && currentUser == old(currentUser)
                             && storedToken == old(storedToken) && storedUser == old(storedUser)
    {
      if reply.Ok? {
        authToken, currentUser := Some(reply.value.0), Some(reply.value.1);
        storedToken, storedUser := authToken, currentUser;
        return None;
      }
      return Some(if reply.error.Some? && reply.error.value != "" then reply.error.value else "Login failed");
    }

    /** `logout`: the `finally` clears both globals and both stored entries,
      whether or not the logout request went through. */
    method Logout(requestFailed: bool)
      modifies this
      ensures authToken.None? && currentUser.None? && storedToken.None? && storedUser.None?
    {
      authToken, currentUser := None, None;
      storedToken, storedUser := None, None;
    }
  }

  /** The empty string has no third `-` field, so its time cannot be read. */
  lemma EmptyTokenUnreadable()
    ensures TokenTime("").None?
  {
    SplitNoSep("", '-');
  }

  /** After logging out the console is signed out, at any time. */
  lemma LoggedOutIsExpired(now: int)
    ensures TokenExpired(None, now) && TokenExpiredAsWritten(None, now)
  {
  }

  // ---------------------------------------------------------------- staff list

  /** The global `staffData`, the rows the table shows and the count above it. */
  class StaffListView {
    var staffData: seq<StaffSummary>
    var displayed: seq<StaffSummary>
    var shownCount: nat

    /** `loadStaffData` on success: the whole list is shown and counted. */
    constructor (staff: seq<StaffSummary>)
      ensures staffData == staff && displayed == staff && shownCount == |staff|
    {
      staffData, displayed, shownCount := staff, staff, |staff|;
    }

    /** `filterStaff`: the table is drawn from the filtered list put in
      `staffData` for the time of the call, then `staffData` is restored and the
      count shows the filtered length. */
    method FilterStaff(roleFilter: string, searchQuery: string)
      modifies this
      ensures staffData == old(staffData)
      ensures displayed == Filter(old(staffData), roleFilter, searchQuery)
      ensures shownCount == |displayed|
    {
      var filtered := Filter(staffData, roleFilter, searchQuery);
      var original := staffData;
      staffData := filtered;
      displayed := staffData;
      staffData := original;
      shownCount := |filtered|;
    }
  }

  /** The table after filtering lists, in directory order, exactly the members that
      match, and clearing both fields lists them all again. */
  lemma FilterViewFacts(staff: seq<StaffSummary>, roleFilter: string, searchQuery: string, m: StaffSummary)
    ensures Sublist(Filter(staff, roleFilter, searchQuery), staff)
    ensures m in Filter(staff, roleFilter, searchQuery) <==> m in staff && Matches(m, roleFilter, searchQuery)
    ensures Filter(staff, "", "") == staff
  {
    FilterIsSublist(staff, roleFilter, searchQuery);
    FilterMembers(staff, roleFilter, searchQuery, m);
    NoFilterKeepsAll(staff);
  }

  // ---------------------------------------------------------------- add-staff form

  datatype StaffForm = StaffForm(role: string, firstName: string, lastName: string, email: string,
                                 phone: string, password: string, passwordConfirm: string)

  /** `handleStaffFormSubmit`'s checks, in order, then the body it posts: the six
      form fields and no username. */
  function StaffFormRequest(f: StaffForm): (r: Result<JsonStaffDirectory.Body, string>)
    ensures r.Ok? <==> && f.role != "" && f.firstName != "" && f.lastName != "" && f.email != ""
                       && f.phone != "" && |f.password| >= 6 && f.password == f.passwordConfirm
    ensures (f.role == "" || f.firstName == "" || f.lastName == "" || f.email == "" || f.phone == "" || f.password == "")
            ==> r == Err("Please fill in all required fields")
    ensures r.Ok? ==> "username" !in r.value && "password" in r.value && r.value["password"] == f.password
  {
    if f.role == "" || f.firstName == "" || f.lastName == "" || f.email == "" || f.phone == "" || f.password == "" then
      Err("Please fill in all required fields")
    else if |f.password| < 6 then Err("Password must be at least 6 characters long")
    else if f.password != f.passwordConfirm then Err("Passwords do not match")
    else Ok(map["role" := f.role, "firstName" := f.firstName, "lastName" := f.lastName,
                "email" := f.email, "phone" := f.phone, "password" := f.password])
  }

  /** Every request the form lets through is refused by the storefront server,
      which requires a username first. */
  lemma StaffFormAlwaysRefused(f: StaffForm, staff: seq<JsonStaffDirectory.StaffRecord>,
                               hashed: JsonStaffDirectory.PasswordHash, now: int, nowIso: string)
    requires StaffFormRequest(f).Ok?
    ensures JsonStaffDirectory.CreateSpec(staff, StaffFormRequest(f).value, hashed, now, nowIso)
            == Err(JsonStaffDirectory.UsernameRequired)
  {
  }

  /** The form with a username field, whose value is posted as `username`. */
  function StaffFormRequestWithUsername(f: StaffForm, username: string): (r: Result<JsonStaffDirectory.Body, string>)
    ensures r.Ok? <==> StaffFormRequest(f).Ok? && username != ""
    ensures r.Ok? ==> r.value == StaffFormRequest(f).value["username" := username]
  {
    if username == "" then Err("Please fill in all required fields")
    else
      var body := StaffFormRequest(f);
      if body.Err? then body else Ok(body.value["username" := username])
  }

  /** With the username sent, the server creates the member exactly when the
      username is not taken yet. */
  lemma StaffFormWithUsernameAccepted(f: StaffForm, username: string, staff: seq<JsonStaffDirectory.StaffRecord>,
                                      hashed: JsonStaffDirectory.PasswordHash, now: int, nowIso: string)
    requires StaffFormRequestWithUsername(f, username).Ok?
    ensures JsonStaffDirectory.CreateSpec(staff, StaffFormRequestWithUsername(f, username).value, hashed, now, nowIso).Ok?
            <==> !JsonStaffDirectory.UsernameUsed(staff, username)
  {
    JsonStaffDirectory.CreateFacts(staff, StaffFormRequestWithUsername(f, username).value, hashed, now, nowIso);
  }

  // ---------------------------------------------------------------- password reset

  /** What the reset button leads to. */
  datatype ResetStep = NoRequest | Alert(message: string) | Send(body: JsonStaffDirectory.Body)

  /** `resetStaffPassword` as written: nothing for an unknown member or a
      cancelled or empty prompt, an alert for fewer than 6 characters, otherwise
      the body `{password}`. */
  function ResetRequest(known: bool, answer: Option<string>): (r: ResetStep)
    ensures r.Send? <==> known && answer.Some? && |answer.value| >= 6
    ensures r.Send? ==> r.body == map["password" := answer.value]
    ensures r.Alert? <==> known && answer.Some? && 0 < |answer.value| < 6
  {
    if !known || answer.None? || answer.value == "" then NoRequest
    else if |answer.value| < 6 then Alert("Password must be at least 6 characters long")
    else Send(map["password" := answer.value])
  }

  /** The server reads `newPassword`, so every reset the prompt sends is refused
      with the short-password error. */
  lemma ResetAlwaysRefused(known: bool, answer: Option<string>, staff: seq<JsonStaffDirectory.StaffRecord>, id: int,
                           hashed: JsonStaffDirectory.PasswordHash, nowIso: string)
    requires ResetRequest(known, answer).Send?
    ensures JsonStaffDirectory.ResetSpec(staff, id, ResetRequest(known, answer).body, hashed, nowIso)
            == Err(JsonStaffDirectory.PasswordTooShort)
  {
  }

  /** The request under the name the server reads. */
  function ResetRequestNamed(known: bool, answer: Option<string>): (r: ResetStep)
    ensures r.Send? <==> ResetRequest(known, answer).Send?
    ensures r.Send? ==> r.body == map["newPassword" := answer.value]
  {
    var step := ResetRequest(known, answer);
    if step.Send? then Send(map["newPassword" := answer.value]) else step
  }

  /** Sent under `newPassword`, a reset the prompt lets through succeeds exactly
      when the member is still on the server's list. */
  lemma ResetNamedAccepted(known: bool, answer: Option<string>, staff: seq<JsonStaffDirectory.StaffRecord>, id: int,
                           hashed: JsonStaffDirectory.PasswordHash, nowIso: string)
    requires ResetRequestNamed(known, answer).Send?
    ensures JsonStaffDirectory.ResetSpec(staff, id, ResetRequestNamed(known, answer).body, hashed, nowIso).Ok?
            <==> JsonStaffDirectory.IndexOfId(staff, id).Some?
  {
    JsonStaffDirectory.ResetFacts(staff, id, ResetRequestNamed(known, answer).body, hashed, nowIso);
  }
}
