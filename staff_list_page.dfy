/** The React staff page (frontend pages/Staff.js): the filtered list and its
    count, the password-reset prompt, and the choice between creating and
    updating when the modal is submitted. */
module StaffListPage {
  import opened Wrappers
  import opened StaffFilter
  import StaffRoutes
  import RoleCounters

  /** The header `Staff Members (n)`: `n` is the length of the filtered list. */
  function HeaderCount(staff: seq<StaffSummary>, roleFilter: string, searchQuery: string): (n: nat)
    ensures n <= |staff|
    ensures roleFilter == "" && searchQuery == "" ==> n == |staff|
  {
    if roleFilter == "" && searchQuery == "" then
      NoFilterKeepsAll(staff);
      |Filter(staff, roleFilter, searchQuery)|
    else
      |Filter(staff, roleFilter, searchQuery)|
  }

  /** What the reset button leads to. */
  datatype ResetStep = NoRequest | ShowError(message: string) | Send(id: int, body: StaffRoutes.Body)

  /** `handleResetPassword`: nothing for a cancelled or empty prompt, the error
      for fewer than 6 characters, otherwise `{newPassword}` to the member's
      reset route. */
  function ResetPasswordRequest(member: StaffSummary, answer: Option<string>): (r: ResetStep)
    ensures r.Send? <==> answer.Some? && |answer.value| >= 6
    ensures r.Send? ==> r.id == member.id && r.body == map["newPassword" := answer.value]
    ensures r.ShowError? <==> answer.Some? && 0 < |answer.value| < 6
  {
    if answer.None? || answer.value == "" then NoRequest
    else if |answer.value| < 6 then ShowError("Password must be at least 6 characters long")
    else Send(member.id, map["newPassword" := answer.value])
  }

  /** Every reset the page sends passes the back end's length check, so it
      succeeds exactly when the member still exists. */
  lemma ResetRequestAccepted(member: StaffSummary, answer: Option<string>, rows: RoleCounters.StaffTable,
                             counters: map<string, nat>, passwordHash: string)
    requires ResetPasswordRequest(member, answer).Send?
    ensures var step := ResetPasswordRequest(member, answer);
            StaffRoutes.ResetSpec(rows, step.id, step.body, passwordHash).Ok? <==> member.id in rows
  {
    var step := ResetPasswordRequest(member, answer);
    StaffRoutes.ResetFacts(counters, rows, step.id, step.body, passwordHash);
  }

  /** The call `handleModalSubmit` makes. */
  datatype SaveCall = UpdateCall(id: int, data: StaffRoutes.Body) | CreateCall(data: StaffRoutes.Body)

  /** An update of the selected member when one is selected, a create otherwise. */
  function ModalSubmitCall(selected: Option<StaffSummary>, data: StaffRoutes.Body): (c: SaveCall)
    ensures c.UpdateCall? <==> selected.Some?
    ensures c.UpdateCall? ==> c.id == selected.value.id
    ensures c.data == data
  {
    if selected.Some? then UpdateCall(selected.value.id, data) else CreateCall(data)
  }

  /** The success message after a save. */
  function SavedMessage(selected: Option<StaffSummary>, firstName: string, lastName: string, staffId: string): string {
    if selected.Some? then firstName + " " + lastName + " has been updated successfully."
    else firstName + " " + lastName + " has been added successfully with ID: " + staffId
  }
}
