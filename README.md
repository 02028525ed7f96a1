# Date & Maple Café — a Dafny model of the shop's logic

This project models, in Dafny, the logic of the Date & Maple Café website. The site has a public storefront with a menu, a cart, a checkout, reviews and a contact form. Behind it sit a back office for staff and menu management and two servers. One is an Express server that keeps its lists in JSON files. The other is an Express server over sqlite, with a staff-identifier allocator.

Every module below follows one source file, or one part of it. Code that changes state step by step is a `class` whose methods are proved against a specification function. Pure code is datatypes, functions and lemmas.

| module | file | what it covers |
|---|---|---|
| `Wrappers` | — | `Option` (JavaScript's `undefined`/`null`) and `Result` |
| `JsStrings` | — | `trim`, `toLowerCase`, `split`/`join`, `includes`, `padStart`, decimal text, `parseInt`, and how a single-quoted literal is read |
| `FormRules` | — | the phone, e-mail and username patterns the forms share |
| `RoleCounters` | `backend/config/database.js` | role prefixes, the per-role counter table and `generateStaffId`, the staff table's constraints, the default-admin bootstrap |
| `JsonStaffDirectory` | `server.js` (staff routes) | create, update, delete and password reset over the JSON staff list; the count-based identifier |
| `JsonOrders` | `server.js` (orders, messages, reviews, stats, login) | order creation and status updates, review prepend, the pending count, the demo login token |
| `Requests` | `backend/routes/staff.js`, `backend/routes/menu.js` | what the two back-office routers share: one validator's outcome, and the body that a list of `[key, value]` entries spells |
| `StaffRoutes` | `backend/routes/staff.js` | the validators, the allocate-then-insert create, the update-statement builder, reset, and the routes that use an unimported `pool` |
| `MenuRoutes` | `backend/routes/menu.js` | the token dispatch, `canEditMenu`, the item validators and create defaults, the update builder, 404 on zero changed rows |
| `Cart` | `js/cart.js` | cart lines and their keys; add, quantity, remove and clear; the badge count and subtotal in cents; the checkout gate; option labels |
| `Storefront` | `js/main.js` | `escapeHtml`, the star icons, the category buttons, and the review and contact lists in `localStorage` |
| `EnhancedPayment` | `js/enhanced-payment.js` | the card-field formatters, payment-method names, the empty-cart check, and the order each payment flow records |
| `Payment` | `js/payment.js` | amount checks, decline-code messages, the payment-method choice, the Stripe card flow with Stripe as parameters |
| `AdminConsole` | `js/admin.js` | token age, the session, the staff filter view, the add-staff form and the reset prompt, with the server's answer to each |
| `StaffPage` | `js/staff.js` | the form mode, the required-field loop, and the request each form sends |
| `StaffModal` | `frontend/src/components/StaffModal.js` | form initialisation, `handleChange`, `validateForm` and `handleSubmit` |
| `StaffFilter` | `js/admin.js`, `frontend/src/pages/Staff.js` | the role and search filter both pages use |
| `StaffListPage` | `frontend/src/pages/Staff.js` | the header count, the reset prompt, and the choice between create and update |
| `MenuViewer` | `frontend/src/components/MenuViewer.js` | the cashier and category filters, and the grouping by category |
| `StaffStats` | `frontend/src/pages/Dashboard.js` | per-role counts, labels and icons. The identical loop in `displayDashboardStats` (`js/admin.js:231-270`) is covered by the same members. |

File paths are relative to `datemaplecafe/enhanced-website/`, except `server.js`, which is `datemaplecafe/server.js`. Money is in whole cents. Password hashes, clocks, identifiers made from `Date.now()`, and the e-mail check of the validation library are parameters.

## Model

| member | source | states |
|---|---|---|
| RoleCounters.RolePrefix | datemaplecafe/enhanced-website/backend/config/database.js:159-167 | the prefix has two letters and is `ST` exactly when the role is not one of Manager, Barista, Cashier, Baker, Cleaner |
| RoleCounters.PrefixNamesRole | datemaplecafe/enhanced-website/backend/config/database.js:159-165 | two different roles of the five never share a prefix |
| RoleCounters.FormatStaffId | datemaplecafe/enhanced-website/backend/config/database.js:191 | the identifier starts with the prefix, the rest is all digits and reads back as the counter, and it is exactly prefix + 3 characters iff the counter is below 1000 (wider values are not cut) |
| RoleCounters.DecimalWidth | datemaplecafe/enhanced-website/backend/config/database.js:191 | a counter is written with at most three digits iff it is below 1000 |
| RoleCounters.StaffIdInjective | datemaplecafe/enhanced-website/backend/config/database.js:191 | with prefixes of equal width, equal identifiers mean equal prefix and equal counter |
| RoleCounters.Issue | datemaplecafe/enhanced-website/backend/config/database.js:171-191 | a run of allocations answers every request, in order |
| RoleCounters.IssueAbove | datemaplecafe/enhanced-website/backend/config/database.js:171-191 | an allocation yields a number iff its role has a counter row, and the number is above that row's starting value |
| RoleCounters.IssueIncreasing | datemaplecafe/enhanced-website/backend/config/database.js:171-191 | two allocations for the same role, earlier and later, return strictly increasing numbers |
| RoleCounters.IssuedIdsDistinct | datemaplecafe/enhanced-website/backend/config/database.js:159-191 | when the counter rows are the five roles', any two identifiers handed out in a run differ |
| RoleCounters.CounterTable.constructor | datemaplecafe/enhanced-website/backend/config/database.js:89-93 | the counter table starts empty |
| RoleCounters.CounterTable.InitializeRoles | datemaplecafe/enhanced-website/backend/config/database.js:127-132 | afterwards every one of the five roles has a counter; a missing one is 0 and an existing value is never overwritten; no other row appears |
| RoleCounters.CounterTable.Allocate | datemaplecafe/enhanced-website/backend/config/database.js:156-199 | for a role with a row, exactly that counter goes up by one and the identifier is formatted from the new value; for a role without a row nothing changes and no identifier is produced (there the callback's `row.counter` throws; `StaffRoutes.StaffDatabase.AllocateThenInsert` models that as a crash) |
| RoleCounters.InsertStaff | datemaplecafe/enhanced-website/backend/config/database.js:35-42 | an insert succeeds iff the key is new, the role is one of the five, and `staff_id` and `email` are unused; the table after it still satisfies the constraints |
| RoleCounters.Setting | datemaplecafe/enhanced-website/backend/config/database.js:98 | `process.env.X \|\| fallback` gives the fallback iff the setting is unset, empty or already the fallback, and the setting itself whenever it is set and not empty |
| RoleCounters.CountUsernameZero | datemaplecafe/enhanced-website/backend/config/database.js:96-106 | the `COUNT(*)` is zero iff no admin has the username |
| RoleCounters.BootstrapAdmin | datemaplecafe/enhanced-website/backend/config/database.js:96-124 | (with the `email UNIQUE` column of line 25) afterwards the configured username exists iff it existed before or no admin has the configured email; the default admin is appended exactly when no admin had the username and the email is free, otherwise the table is unchanged |
| RoleCounters.BootstrapIdempotent | datemaplecafe/enhanced-website/backend/config/database.js:96-106 | running the bootstrap a second time inserts nothing |
| JsonStaffDirectory.IndexOfId | datemaplecafe/server.js:621 | `findIndex` gives the first position holding the id, and nothing exactly when no record has it |
| JsonStaffDirectory.CountWithRole | datemaplecafe/server.js:579 | the number of records with the role never exceeds the list length |
| JsonStaffDirectory.StaffFile.constructor | datemaplecafe/server.js:543-610 | the staff list holds the records read from the file |
| JsonStaffDirectory.StaffFile.FindIndex | datemaplecafe/server.js:621-625 | the loop returns -1 iff no record has the id, otherwise the first index that has it |
| JsonStaffDirectory.StaffFile.CountRoleLoop | datemaplecafe/server.js:579-580 | the loop counts exactly the records whose role equals the requested one |
| JsonStaffDirectory.StaffFile.FindUsername | datemaplecafe/server.js:561-629 | (the lookups at lines 561 and 629) finds a record iff the username is used, by another record when an id is excluded |
| JsonStaffDirectory.StaffFile.Create | datemaplecafe/server.js:543-610 | the new list is what the create specification gives, and an error leaves the list unchanged |
| JsonStaffDirectory.StaffFile.Update | datemaplecafe/server.js:612-664 | the new list is what the update specification gives, and an error leaves the list unchanged |
| JsonStaffDirectory.StaffFile.Delete | datemaplecafe/server.js:666-690 | the new list is what the delete specification gives, and an error leaves the list unchanged |
| JsonStaffDirectory.StaffFile.ResetPassword | datemaplecafe/server.js:693-732 | the new list is what the reset specification gives, and an error leaves the list unchanged |
| JsonStaffDirectory.FirstIndex | datemaplecafe/server.js:621 | the first position holding the id is the one `findIndex` returns |
| JsonStaffDirectory.CreateFacts | datemaplecafe/server.js:549-598 | a missing username is refused first and then a missing or short password; create succeeds iff both pass and the username is unused; on success exactly one record is appended with the body's username, the clock's id, `password_set` true and the count-based `staff_id`, and the earlier records stay as they were |
| JsonStaffDirectory.CreateKeepsUsernamesUnique | datemaplecafe/server.js:560-598 | create keeps non-empty usernames pairwise distinct |
| JsonStaffDirectory.UpdateFacts | datemaplecafe/server.js:621-648 | 404 iff no record has the id; the username conflict is raised iff a username is given and another record uses it; on success only that record changes: role, first and last name, username, email and phone are the body's (absent ones undefined), the update date is the clock's, and id, `staff_id`, password hash, salt and flag, reset date and hire date are kept |
| JsonStaffDirectory.UpdateKeepsUsernamesUnique | datemaplecafe/server.js:628-648 | with distinct ids, update keeps non-empty usernames pairwise distinct |
| JsonStaffDirectory.DeleteFacts | datemaplecafe/server.js:671-678 | 404 iff no record has the id; otherwise exactly one record with the id is removed and the rest keep their order |
| JsonStaffDirectory.ResetFacts | datemaplecafe/server.js:696-720 | a missing `newPassword` is refused before the lookup; success iff it has at least 6 characters and the id exists; only the password hash, salt, `password_set` and reset date of that record change |
| JsonStaffDirectory.CountBasedIdRepeats | datemaplecafe/server.js:567-584 | two Baristas BA001 and BA002, delete BA001, and the next Barista is created as BA002 again: the identifiers are no longer distinct |
| JsonStaffDirectory.CreateCountedKeepsStaffIdsUnique | datemaplecafe/server.js:543-598 | numbering from a per-prefix counter answers every request as create does and keeps every `staff_id` distinct and issued |
| JsonStaffDirectory.DeleteAndUpdateKeepIdsIssued | datemaplecafe/server.js:612-678 | update and delete keep the identifiers distinct and issued |
| JsonOrders.NewOrderFacts | datemaplecafe/server.js:313-318 | a new order is `pending` with the server's timestamp whatever the body says; its id is the body's when the body has one, otherwise the server's; every other property is the body's |
| JsonOrders.IndexOfOrder | datemaplecafe/server.js:362 | the first order whose id is strictly equal, and nothing exactly when none has it |
| JsonOrders.PendingCount | datemaplecafe/server.js:452 | the pending count never exceeds the number of orders |
| JsonOrders.DataFiles.constructor | datemaplecafe/server.js:301-438 | the three lists start empty |
| JsonOrders.DataFiles.CreateOrder | datemaplecafe/server.js:311-357 | the reply and the orders file are those of the create specification: the new order is appended and written; a body without `customerInfo` then fails with 500 "Failed to create order" and the file keeps the appended order; otherwise the e-mail outcome is noted on the first order with the new id, the file is written again, and the reply is that order with its message; messages and reviews are untouched |
| JsonOrders.CreateFresh | datemaplecafe/server.js:311-344 | when no stored order has the new id, creating appends exactly one pending order (carrying its e-mail outcome when `customerInfo` is present) and keeps the earlier orders |
| JsonOrders.CreateOverwritesEarlier | datemaplecafe/server.js:339-344 | when an earlier order has the id the body supplies, the write-back replaces that earlier order by the new one and the appended copy keeps no e-mail outcome; every other order is kept |
| JsonOrders.DataFiles.UpdateOrderStatus | datemaplecafe/server.js:356-378 | the orders after the call are what the status-update specification gives; an error changes nothing |
| JsonOrders.DataFiles.AddMessage | datemaplecafe/server.js:390-399 | the stamped message is appended; the other lists are untouched |
| JsonOrders.DataFiles.AddReview | datemaplecafe/server.js:420-429 | the stamped review goes to the front; the other lists are untouched |
| JsonOrders.DataFiles.ClearOrders | datemaplecafe/server.js:735-743 | the orders become empty and nothing else changes |
| JsonOrders.DataFiles.ClearMessages | datemaplecafe/server.js:745-753 | the messages become empty and nothing else changes |
| JsonOrders.DataFiles.ClearReviews | datemaplecafe/server.js:755-763 | the reviews become empty and nothing else changes |
| JsonOrders.DataFiles.Stats | datemaplecafe/server.js:441-470 | the totals are the list lengths and the pending count is the number of pending orders, never above the total |
| JsonOrders.CountPending | datemaplecafe/server.js:452 | the counting loop gives exactly the pending count |
| JsonOrders.FirstOrder | datemaplecafe/server.js:362 | the first position holding the id is the one `findIndex` returns |
| JsonOrders.UpdateStatusFacts | datemaplecafe/server.js:362-369 | 404 iff no order has the id; otherwise only that order changes, and in it only `status` (when the body has one) and `lastUpdated` |
| JsonOrders.PendingAfterCreate | datemaplecafe/server.js:311-452 | (the create at lines 311-344 and the count at line 452) when no stored order has the new id, creating raises the pending count by exactly one |
| JsonOrders.PendingAfterStatus | datemaplecafe/server.js:368-452 | (the status change at line 368 and the count at line 452) changing one order moves the pending count by its old and new pending status only |
| JsonOrders.Login | datemaplecafe/server.js:496-521 | a token is issued iff the credentials are admin / admin123; the token is `admin-token-` followed by the clock's decimal digits; anything else is a 401 |
| StaffRoutes.Sanitize | datemaplecafe/enhanced-website/backend/routes/staff.js:55-56 | the `trim()` sanitizers replace `firstName` and `lastName` by their trimmed values, keep the set of properties, and leave every other property as it was |
| Requests.Check | datemaplecafe/enhanced-website/backend/routes/staff.js:54-59 | one validator reports its own rule exactly when it fails, and nothing when it passes |
| StaffRoutes.Validate | datemaplecafe/enhanced-website/backend/routes/staff.js:54-59 | the error list is empty iff all six checks pass, and it names each failed rule and no other |
| StaffRoutes.CreateErrors | datemaplecafe/enhanced-website/backend/routes/staff.js:54-70 | a create is valid iff the role is one of the five, both names have 2-50 characters once trimmed, the email passes `isEmail`, the phone matches the phone pattern and the password has at least 6 characters; otherwise all failures are listed |
| StaffRoutes.UpdateErrors | datemaplecafe/enhanced-website/backend/routes/staff.js:193-208 | an update is valid iff every property that is present passes its create rule, the names once trimmed |
| StaffRoutes.EmptyUpdateIsValid | datemaplecafe/enhanced-website/backend/routes/staff.js:193-198 | an empty body passes every optional validator |
| StaffRoutes.DuplicateEmailConsumesCounter | datemaplecafe/enhanced-website/backend/routes/staff.js:76-100 | a valid create refused for a duplicate email answers 'Email address already exists', inserts nothing, and has still raised the role's counter |
| StaffRoutes.InvalidCreateChangesNothing | datemaplecafe/enhanced-website/backend/routes/staff.js:62-70 | an invalid body is answered with its validation errors, and neither counters nor rows change |
| StaffRoutes.CreateKeepsInvariant | datemaplecafe/enhanced-website/backend/routes/staff.js:52-143 | from a table whose identifiers were all issued by the counters and with a fresh row id, create succeeds iff the body is valid, the role has a counter row and the email is unused; the invariant holds afterwards; success adds exactly the new row, which holds the trimmed names, the body's role, email and phone, the password hash, the creating user and no last login |
| StaffRoutes.AllocateKeepsInvariant | datemaplecafe/enhanced-website/backend/routes/staff.js:79-115 | after validation, allocation and insert keep the invariant, and succeed iff the role has a counter and the email is unused |
| StaffRoutes.AllocateAddsOneRow | datemaplecafe/enhanced-website/backend/routes/staff.js:103-106 | a successful insert adds the one row under the new key, built from the sanitized body, and leaves every other row alone |
| StaffRoutes.RaiseKeepsIssued | datemaplecafe/enhanced-website/backend/routes/staff.js:79 | raising a role's counter keeps every row's identifier issued, and the identifier it hands out is in no row |
| StaffRoutes.InsertKeepsInvariant | datemaplecafe/enhanced-website/backend/routes/staff.js:103-106 | inserting an insertable row whose identifier was issued keeps the invariant |
| StaffRoutes.IssuedIdIsNew | datemaplecafe/enhanced-website/backend/config/database.js:167-191 | an identifier issued before differs from the next one: another role has another prefix, the same role a smaller number |
| StaffRoutes.NewRowIssued | datemaplecafe/enhanced-website/backend/routes/staff.js:79-106 | the inserted row carries the identifier just issued |
| StaffRoutes.EntryColumn | datemaplecafe/enhanced-website/backend/routes/staff.js:234-245 | each body entry adds at most one column to the SET list |
| StaffRoutes.UpdateColumns | datemaplecafe/enhanced-website/backend/routes/staff.js:233-246 | the SET list has at most one column per entry |
| StaffRoutes.BuildUpdate | datemaplecafe/enhanced-website/backend/routes/staff.js:230-246 | the loop's `updateFields` and `updateValues` are exactly the SET list's `column = ?` texts and values, in order |
| StaffRoutes.UpdateColumnsFacts | datemaplecafe/enhanced-website/backend/routes/staff.js:233-254 | every non-password entry appears under its column name (only the two names renamed, no allow-list), every non-blank password as its hash, never a raw `password`; the list is empty, so no UPDATE runs, iff every entry is a blank password |
| StaffRoutes.ResetErrors | datemaplecafe/enhanced-website/backend/routes/staff.js:286 | the only reset rule fails iff `newPassword` is missing or shorter than 6 |
| StaffRoutes.ResetFacts | datemaplecafe/enhanced-website/backend/routes/staff.js:284-356 | reset succeeds iff `newPassword` has at least 6 characters and the row exists, answers 404 iff the password is long enough and the row is missing, changes only that row's `password_hash`, and keeps the invariant |
| StaffRoutes.StaffDatabase.constructor | datemaplecafe/enhanced-website/backend/config/database.js:35-93 | the store holds the given counters and rows |
| StaffRoutes.StaffDatabase.Create | datemaplecafe/enhanced-website/backend/routes/staff.js:52-152 | the reply, counters and rows after the route are those of the create specification, which validates the body as sent and inserts the sanitized one |
| StaffRoutes.StaffDatabase.AllocateThenInsert | datemaplecafe/enhanced-website/backend/routes/staff.js:79-115 | the state after allocation, email lookup and insert is that of the allocation specification; a role without a counter row ends in a crash with no reply and nothing changed, as `row.counter` of a missing row throws in the allocator's callback (`backend/config/database.js:185-190`) |
| StaffRoutes.StaffDatabase.Insert | datemaplecafe/enhanced-website/backend/routes/staff.js:82-115 | the email lookup answers "Email address already exists" for a used email, the INSERT fails with the 500 when a constraint would break, and otherwise the row is added under the new key; the counters are not touched |
| StaffRoutes.StaffDatabase.ResetPassword | datemaplecafe/enhanced-website/backend/routes/staff.js:284-356 | the rows after the route are what the reset specification gives, the counters never change, and an error changes nothing |
| StaffRoutes.PoolRouteAsWritten | datemaplecafe/enhanced-website/backend/routes/staff.js:159-363 | (the `pool` calls at lines 159, 213 and 363) a route that reaches the unimported `pool` always answers an error, the 500 of its catch block once validation passes |
| StaffRoutes.PoolRoutesAlwaysFail | datemaplecafe/enhanced-website/backend/routes/staff.js:155-395 | GET and DELETE by id always answer their 500, and PUT never succeeds, even for an existing row |
| StaffRoutes.GetById | datemaplecafe/enhanced-website/backend/routes/staff.js:155-188 | with a working connection: the row iff it exists, otherwise 404 |
| StaffRoutes.DeleteFacts | datemaplecafe/enhanced-website/backend/routes/staff.js:359-395 | with a working connection: 404 iff the row is missing; otherwise exactly that row goes, the others stay, and the invariant holds |
| StaffRoutes.UpdateFacts | datemaplecafe/enhanced-website/backend/routes/staff.js:191-281 | with a working connection: success needs a valid body (validated on the body's entries, names trimmed) and an existing row; given a valid body, 404 iff the row is missing; success rewrites at most that row, which moves to another key only through an `id` column, keeps the table's constraints, and an empty SET list changes nothing |
| StaffRoutes.UpdateKeepsKeys | datemaplecafe/enhanced-website/backend/routes/staff.js:233-253 | a successful update whose body has no `id` property keeps every row under its key |
| StaffRoutes.UpdateWritesBody | datemaplecafe/enhanced-website/backend/routes/staff.js:193-253 | after a successful update, each text column a body key names (role, names, email, phone) holds the body's value, the names trimmed, or its old value when the body does not carry the key |
| StaffRoutes.ColumnsCarryBody | datemaplecafe/enhanced-website/backend/routes/staff.js:233-246 | in the SET list built from the entries, the last value for a key's column is the body's value for that key, and there is none when the body lacks it |
| StaffRoutes.SanitizeEntriesBody | datemaplecafe/enhanced-website/backend/routes/staff.js:194-195 | sanitizing the entries one by one spells the body the sanitizers leave, so the loop at line 233 sees the trimmed names |
| StaffRoutes.RunUpdateFacts | datemaplecafe/enhanced-website/backend/routes/staff.js:248-254 | a statement that runs fails only with the 500, keeps the constraints, rewrites only the row at the id, and keeps every key unless an `id` column is set |
| StaffRoutes.ApplyColumnsText | datemaplecafe/enhanced-website/backend/routes/staff.js:250-253 | without an `id` column each text column ends up with the last value the SET list gives it, or keeps its value |
| FormRules.EmailShapeFacts | datemaplecafe/enhanced-website/frontend/src/components/StaffModal.js:77 | the email pattern holds iff the text has no white space, exactly one '@', not first, and a '.' after it that is neither right after the '@' nor last |
| MenuRoutes.StripBearer | datemaplecafe/enhanced-website/backend/routes/menu.js:10 | removing the first `Bearer ` never lengthens the header |
| MenuRoutes.AuthDispatch | datemaplecafe/enhanced-website/backend/routes/menu.js:8-60 | the middleware lets a request through iff there is a token, it verifies, and its user is in the table its type names (staff tokens against `staff_members`, any other against `admin_users`); every refusal is a 401; a staff caller carries its row's role and any other caller is an admin |
| MenuRoutes.CanEditMenu | datemaplecafe/enhanced-website/backend/routes/menu.js:63-71 | menu editing is allowed iff the caller is an admin or a Manager; otherwise the 403 |
| MenuRoutes.IntText | datemaplecafe/enhanced-website/backend/routes/menu.js:175-178 | `isInt` reads an integer only from a non-empty text |
| MenuRoutes.SanitizeName | datemaplecafe/enhanced-website/backend/routes/menu.js:172 | the `trim()` sanitizer rewrites only `name`, to its trimmed text |
| MenuRoutes.Validate7 | datemaplecafe/enhanced-website/backend/routes/menu.js:172-178 | the create error list is empty iff all seven checks pass, and names each failed rule |
| MenuRoutes.OptionalChecks | datemaplecafe/enhanced-website/backend/routes/menu.js:175-178 | the last four rules are listed exactly when they fail |
| MenuRoutes.Validate4 | datemaplecafe/enhanced-website/backend/routes/menu.js:239-242 | the update error list is empty iff all four checks pass, and names each failed rule |
| MenuRoutes.CreateItemErrors | datemaplecafe/enhanced-website/backend/routes/menu.js:172-187 | a create is valid iff the trimmed name has 1-100 characters, the price is at least 0, the category id is at least 1, and description, image URL, allergens and preparation time (1-120) pass when given |
| MenuRoutes.UpdateItemErrors | datemaplecafe/enhanced-website/backend/routes/menu.js:239-251 | an update is valid iff each of name, description, price and category id passes its rule when present |
| MenuRoutes.NewItemDefaults | datemaplecafe/enhanced-website/backend/routes/menu.js:194-205 | a new item is available unless the body says `false`, featured only when it says `true`, has preparation time 5 and display order 0 unless given, and records its creator only for an admin |
| MenuRoutes.EntryColumn | datemaplecafe/enhanced-website/backend/routes/menu.js:261-293 | each body entry adds at most one column |
| MenuRoutes.MenuColumns | datemaplecafe/enhanced-website/backend/routes/menu.js:260-295 | the SET list has at most one column per entry |
| MenuRoutes.EntryColumnFacts | datemaplecafe/enhanced-website/backend/routes/menu.js:261-293 | an entry adds a column iff its key is on the allow-list and its value is not `undefined`; the column is the key's snake_case name; the flags become 1 or 0 and other values pass through |
| MenuRoutes.MenuColumnsComplete | datemaplecafe/enhanced-website/backend/routes/menu.js:260-295 | every allowed entry with a value is in the SET list |
| MenuRoutes.MenuColumnsSound | datemaplecafe/enhanced-website/backend/routes/menu.js:260-295 | every column in the SET list comes from an allowed entry with a value |
| MenuRoutes.MenuColumnsEmpty | datemaplecafe/enhanced-website/backend/routes/menu.js:261-302 | the SET list is empty iff no entry is allowed with a value |
| MenuRoutes.BuildMenuUpdate | datemaplecafe/enhanced-website/backend/routes/menu.js:257-305 | 'No valid fields to update' iff the SET list is empty; otherwise the statement lists the requested columns in order, then `updated_at`, and binds the id last |
| MenuRoutes.ColumnMap | datemaplecafe/enhanced-website/backend/routes/menu.js:307-309 | every column of the list is in the map, and every key of the map comes from the list |
| MenuRoutes.SanitizeEntries | datemaplecafe/enhanced-website/backend/routes/menu.js:239 | sanitizing keeps the keys, their order and which values are `undefined`, and changes only `name` |
| MenuRoutes.MenuTable.constructor | datemaplecafe/enhanced-website/backend/routes/menu.js:169-363 | the table holds the given items |
| MenuRoutes.MenuTable.CreateItem | datemaplecafe/enhanced-website/backend/routes/menu.js:169-233 | the reply and table after the route are those of the create specification |
| MenuRoutes.MenuTable.UpdateItem | datemaplecafe/enhanced-website/backend/routes/menu.js:236-332 | the reply is the update specification's; success rewrites exactly that row with the requested columns and `updated_at`; an error changes nothing |
| MenuRoutes.MenuTable.DeleteItem | datemaplecafe/enhanced-website/backend/routes/menu.js:335-363 | a caller who may not edit gets the 403; otherwise 404 iff no row has the id; success removes exactly that row |
| MenuRoutes.CreateItemFacts | datemaplecafe/enhanced-website/backend/routes/menu.js:169-233 | create succeeds iff the caller may edit and the body is valid, then adds exactly one row; any refusal leaves the table as it was |
| MenuRoutes.CreatedNameTrimmed | datemaplecafe/enhanced-website/backend/routes/menu.js:172-203 | the stored name is the body's name trimmed, 1-100 characters long |
| MenuRoutes.SanitizedName | datemaplecafe/enhanced-website/backend/routes/menu.js:172 | a non-empty sanitized name comes from a name in the body, trimmed |
| MenuRoutes.UpdateItemOrder | datemaplecafe/enhanced-website/backend/routes/menu.js:236-324 | an update answers 403 iff the caller may not edit, 'No valid fields' only when no allowed field has a value, 404 only for an unknown id (zero rows changed), and succeeds only for an existing row with some column |
| MenuRoutes.UpdatedRowKeeps | datemaplecafe/enhanced-website/backend/routes/menu.js:304-309 | the updated row has `updated_at` set, the requested columns set to the requested values, and every other column as before |
| Cart.Assign | datemaplecafe/enhanced-website/js/cart.js:34-38 | assigning an option name keeps every other name's entry in place, adds at most one entry, and the pair chosen is in the result |
| Cart.Values | datemaplecafe/enhanced-website/js/cart.js:48 | `Object.values` lists each option's value in the options' order |
| Cart.ReadOptions | datemaplecafe/enhanced-website/js/cart.js:26-45 | the loop over the selects yields the options object and the base price plus every `data-price` |
| Cart.IndexOfKey | datemaplecafe/enhanced-website/js/cart.js:52 | `findIndex`: the first line with the key, or none exactly when no line has it |
| Cart.Without | datemaplecafe/enhanced-website/js/cart.js:116 | a line survives the filter exactly when it was there and has another key |
| Cart.ShoppingCart.constructor | datemaplecafe/enhanced-website/js/cart.js:3 | the cart starts empty |
| Cart.ShoppingCart.FindLine | datemaplecafe/enhanced-website/js/cart.js:52 | the loop returns the first index with the key, or -1 |
| Cart.ShoppingCart.AddToCart | datemaplecafe/enhanced-website/js/cart.js:21-69 | the new lines are the old ones with the line keyed by the item id and the option values added (quantity raised, or appended with quantity 1 and the option-adjusted price) |
| Cart.ShoppingCart.UpdateQuantity | datemaplecafe/enhanced-website/js/cart.js:100-112 | the new lines are the quantity change of the old ones |
| Cart.ShoppingCart.Remove | datemaplecafe/enhanced-website/js/cart.js:115-119 | the new lines are the old ones without the key |
| Cart.ShoppingCart.Clear | datemaplecafe/enhanced-website/js/cart.js:357-362 | the cart is empty afterwards |
| Cart.FirstKey | datemaplecafe/enhanced-website/js/cart.js:52 | the first line carrying a key is the index `findIndex` finds |
| Cart.AddFacts | datemaplecafe/enhanced-website/js/cart.js:52-69 | adding keeps keys unique and quantities positive, grows the cart by one line exactly when the key is new, raises the badge by one, and leaves a line with the key |
| Cart.AddTwice | datemaplecafe/enhanced-website/js/cart.js:52-69 | adding the same customised item twice to a cart without it appends one line of quantity 2 |
| Cart.QuantityFacts | datemaplecafe/enhanced-website/js/cart.js:100-112 | a quantity change keeps the cart invariant, and an unknown key changes nothing |
| Cart.QuantityRemovesLine | datemaplecafe/enhanced-website/js/cart.js:105-107 | a line falling to 0 or below is spliced out and no line with the key remains |
| Cart.QuantityKeepsLine | datemaplecafe/enhanced-website/js/cart.js:103 | a line staying above 0 takes the change, no other line changes, and the badge moves by the change |
| Cart.DropLine | datemaplecafe/enhanced-website/js/cart.js:106 | splicing one line out of a valid cart keeps it valid and drops its key |
| Cart.RemoveFacts | datemaplecafe/enhanced-website/js/cart.js:115-116 | removing keeps the invariant and every other line, leaves no line with the key, and shrinks the cart by one exactly when the key was there |
| Cart.NoKeyUnchanged | datemaplecafe/enhanced-website/js/cart.js:116 | removing an absent key leaves the cart as it was |
| Cart.CountUpdate | datemaplecafe/enhanced-website/js/cart.js:131 | replacing one line moves the badge by the change in that line's quantity |
| Cart.CountAtLeastLines | datemaplecafe/enhanced-website/js/cart.js:131-135 | in a valid cart the badge is at least the number of lines and reads 0 exactly when the cart is empty |
| Cart.AddSubtotal | datemaplecafe/enhanced-website/js/cart.js:176 | an add raises the subtotal by the existing line's price for a repeat and by the new line's price otherwise |
| Cart.SubtotalUpdate | datemaplecafe/enhanced-website/js/cart.js:176 | replacing one line moves the subtotal by the difference of that line's price times quantity |
| Cart.CheckoutLabel | datemaplecafe/enhanced-website/js/cart.js:163-172 | the button reads "Proceed to Checkout" exactly when a pickup time is chosen |
| Cart.ProceedToCheckout | datemaplecafe/enhanced-website/js/cart.js:244-264 | the checkout modal opens exactly when a pickup time is chosen; otherwise the customer gets the pickup-time error |
| Cart.CheckoutGate | datemaplecafe/enhanced-website/js/cart.js:135-172 | in a valid cart the checkout button is enabled exactly when the badge is above 0 and a pickup time is chosen (so `proceedToCheckout`, lines 244-264, opens the modal), and it then reads "Proceed to Checkout" |
| Cart.Capitalize | datemaplecafe/enhanced-website/js/cart.js:233 | capitalising a word keeps its length |
| Cart.CapitalizeAll | datemaplecafe/enhanced-website/js/cart.js:232-233 | the map capitalises every word in place |
| Cart.Spaced | datemaplecafe/enhanced-website/js/cart.js:231-235 | the character-by-character label has the option's length |
| Cart.JoinCons | datemaplecafe/enhanced-website/js/cart.js:234 | joining a word before a list puts the separator between it and the rest's join |
| Cart.FormatOptionNameSpaced | datemaplecafe/enhanced-website/js/cart.js:231-235 | the split/map/join label equals the character-by-character one |
| Cart.FormatOptionNameShape | datemaplecafe/enhanced-website/js/cart.js:231-235 | the label has the option's length, a space where the option has '-', and the option's character, possibly upper-cased, elsewhere |
| Cart.SpacedShape | datemaplecafe/enhanced-website/js/cart.js:231-235 | the same shape for the character-by-character label |
| Cart.OptionTextsFacts | datemaplecafe/enhanced-website/js/cart.js:187-229 | every shown option (not empty, `none` or `regular`) yields its text, there are no texts exactly when none is shown, and the options block is empty exactly then |
| Storefront.ReplaceAll | datemaplecafe/enhanced-website/js/main.js:316-320 | a global replace of a character the text does not hold leaves the text unchanged |
| Storefront.ReplaceConcat | datemaplecafe/enhanced-website/js/main.js:316-320 | a global replace distributes over concatenation |
| Storefront.EscapeOne | datemaplecafe/enhanced-website/js/main.js:315-322 | the chain of five replacements turns one character into its own entity, because `&` is replaced first |
| Storefront.EscapeConcat | datemaplecafe/enhanced-website/js/main.js:315-322 | escaping distributes over concatenation |
| Storefront.EscapeHtmlIsEscaped | datemaplecafe/enhanced-website/js/main.js:315-322 | the replace chain equals the character-by-character escape |
| Storefront.EscapedHasNoSpecials | datemaplecafe/enhanced-website/js/main.js:315-322 | no `<`, `>`, `"` or `'` is left in escaped text |
| Storefront.EscapedAmpersands | datemaplecafe/enhanced-website/js/main.js:315-322 | every `&` in escaped text starts one of the five entities, so nothing is double-escaped or left raw |
| Storefront.AmpersandOnlyFirst | datemaplecafe/enhanced-website/js/main.js:315-322 | inside one character's entity, an `&` occurs only at its start |
| Storefront.EscapeRoundTrip | datemaplecafe/enhanced-website/js/main.js:315-322 | decoding the five entities undoes `escapeHtml`, so different texts never escape to the same markup |
| Storefront.EscapedRoundTrip | datemaplecafe/enhanced-website/js/main.js:315-322 | decoding undoes the character-by-character escape |
| Storefront.UnescapeStep | datemaplecafe/enhanced-website/js/main.js:315-322 | decoding one escaped character in front of a rest gives that character back |
| Storefront.StarIcons | datemaplecafe/enhanced-website/js/main.js:208-218 | there are always five icons, and star i (from 1) is solid exactly when i <= rating |
| Storefront.GenerateStarRating | datemaplecafe/enhanced-website/js/main.js:208-218 | the loop's string is the concatenation of the five icons |
| Storefront.StarCount | datemaplecafe/enhanced-website/js/main.js:208-218 | the number of solid stars is the rating clamped to 0..5 |
| Storefront.SolidPrefix | datemaplecafe/enhanced-website/js/main.js:208-218 | among the first k icons, the number of solid ones is the rating clamped to 0..k |
| Storefront.UpdateStarDisplay | datemaplecafe/enhanced-website/js/main.js:130-138 | star `index` is active exactly when `index < rating` |
| Storefront.ShowCategory | datemaplecafe/enhanced-website/js/main.js:55-71 | a menu category is displayed exactly when "all" is chosen or its category is the one chosen |
| Storefront.ReviewRating | datemaplecafe/enhanced-website/js/main.js:146-156 | a rating is accepted exactly when `parseInt` reads a whole number other than 0, and that number is stored |
| Storefront.BrowserStorage.constructor | datemaplecafe/enhanced-website/js/main.js:160 | missing `reviews` and `contactMessages` entries read as empty lists |
| Storefront.BrowserStorage.SubmitReview | datemaplecafe/enhanced-website/js/main.js:140-175 | without a rating the form is refused with "Please select a rating" and nothing is stored; otherwise the review goes first; contact messages never change |
| Storefront.BrowserStorage.SubmitContact | datemaplecafe/enhanced-website/js/main.js:80-99 | the message is appended with its timestamp, reviews are untouched, and the thank-you notice is the intended text |
| Storefront.ContactNoticeAsWritten | datemaplecafe/enhanced-website/js/main.js:99 | as written, the doubled backslash closes the string after `We` and one backslash, and an `l` follows, so the script does not parse |
| Storefront.ContactNoticeIntended | datemaplecafe/enhanced-website/js/main.js:99 | with one backslash the literal reads "Thank you for your message! We'll get back to you soon." |
| Payment.CreatePaymentIntent | datemaplecafe/enhanced-website/js/payment.js:128-136 | an intent is created exactly for a positive amount, in usd for that amount, and otherwise the answer is "Invalid amount" |
| Payment.AmountChecks | datemaplecafe/enhanced-website/js/payment.js:128-136 | every amount `validatePaymentAmount` (lines 218-220) allows gets an intent, and the intent also accepts exactly the amounts above 999999 that the validator refuses |
| Payment.PaymentErrorFacts | datemaplecafe/enhanced-website/js/payment.js:223-249 | no code gives the default message; the five known codes give five distinct messages that are neither the default nor the generic one; any other code shows the error's own message when it has one, else the generic text |
| Payment.CvcLiteralAsWritten | datemaplecafe/enhanced-website/js/payment.js:238 | as written, the doubled backslash closes the `incorrect_cvc` string after `card` and one backslash, and an `s` follows, so the script does not parse |
| Payment.CvcLiteralIntended | datemaplecafe/enhanced-website/js/payment.js:238 | with one backslash the literal reads "Your card's security code is incorrect." |
| Payment.ChosenPaymentMethod | datemaplecafe/enhanced-website/js/payment.js:252-263 | the checked method is returned exactly when one is checked and, for card, the card element exists; each failure has its message |
| Payment.StripePaymentSpec | datemaplecafe/enhanced-website/js/payment.js:78-118 | the card flow charges exactly when Stripe is up, the amount in cents is positive and the confirmation succeeds, and then it charges that amount |
| EnhancedPayment.Filter | datemaplecafe/enhanced-website/js/enhanced-payment.js:489 | a character-class replace keeps only characters of the class, never lengthening the text |
| EnhancedPayment.FilterConcat | datemaplecafe/enhanced-website/js/enhanced-payment.js:489 | a character-class replace distributes over concatenation |
| EnhancedPayment.FilterKeepsClass | datemaplecafe/enhanced-website/js/enhanced-payment.js:511 | text made only of kept characters comes through unchanged |
| EnhancedPayment.FormatCvv | datemaplecafe/enhanced-website/js/enhanced-payment.js:511 | the CVV field holds digits only |
| EnhancedPayment.FormatCardName | datemaplecafe/enhanced-website/js/enhanced-payment.js:519 | the card-name field holds ASCII letters and whitespace only |
| EnhancedPayment.CvvAndNameIdempotent | datemaplecafe/enhanced-website/js/enhanced-payment.js:509-521 | reformatting the CVV or name field changes nothing, and an all-digit CVV is kept as typed |
| EnhancedPayment.GroupShape | datemaplecafe/enhanced-website/js/enhanced-payment.js:490 | grouping d digits adds (d-1)/4 spaces, and a space stands exactly at positions 4, 9, 14, … |
| EnhancedPayment.GroupDigits | datemaplecafe/enhanced-website/js/enhanced-payment.js:490 | removing the spaces from the grouped number gives back its digits |
| EnhancedPayment.CardNumberFacts | datemaplecafe/enhanced-website/js/enhanced-payment.js:486-493 | the formatted card number holds exactly the typed digits, and formatting it again changes nothing |
| EnhancedPayment.ExpiryFacts | datemaplecafe/enhanced-website/js/enhanced-payment.js:497-503 | the expiry has at most 5 characters, is the bare digits below two digits, and otherwise has '/' third and the first four digits around it |
| EnhancedPayment.ExpiryIdempotent | datemaplecafe/enhanced-website/js/enhanced-payment.js:497-503 | reformatting a formatted expiry changes nothing |
| EnhancedPayment.PaymentMethodName | datemaplecafe/enhanced-website/js/enhanced-payment.js:376-384 | the name is the fallback "Payment" exactly when the method is none of apple_pay, google_pay, card and cash |
| EnhancedPayment.CartDataFromStorage | datemaplecafe/enhanced-website/js/enhanced-payment.js:270-277 | a stored cart reads back as cart.js's bare array, and a missing one as the object with total 0 |
| EnhancedPayment.StoredEmptyCartPassesAsWritten | datemaplecafe/enhanced-website/js/enhanced-payment.js:247-249 | an empty array, which `clearCart` stores, passes `!cartData \|\| cartData.total <= 0` because an array has no total |
| EnhancedPayment.CartEmptyFacts | datemaplecafe/enhanced-website/js/enhanced-payment.js:247-249 | the intended check refuses a missing cart and a stored empty one, and accepts a valid non-empty cart of positive prices |
| EnhancedPayment.PositiveSubtotal | datemaplecafe/enhanced-website/js/enhanced-payment.js:247-249 | a non-empty cart whose lines have positive price and quantity has a positive subtotal |
| EnhancedPayment.CheckoutPage.constructor | datemaplecafe/enhanced-website/js/enhanced-payment.js:270-290 | the page starts from the stored cart and orders |
| EnhancedPayment.CheckoutPage.Record | datemaplecafe/enhanced-website/js/enhanced-payment.js:280-308 | a placed order is appended to the orders and the cart cleared; anything else changes nothing |
| EnhancedPayment.CheckoutPage.Submit | datemaplecafe/enhanced-website/js/enhanced-payment.js:160-208 | the outcome is the submit specification on the stored cart with the empty-cart check as written (`!cartData \|\| cartData.total <= 0`), and storage changes exactly as `saveOrderAndNotify` and `clearCartAndCloseModal` do |
| EnhancedPayment.CheckoutPage.ExpressPay | datemaplecafe/enhanced-website/js/enhanced-payment.js:42-119 | the Apple Pay and Google Pay buttons apply the empty-cart check as written and place a confirmed order under the wallet's fixed customer when it lets the cart through; storage changes as for a submission |
| EnhancedPayment.SubmitFacts | datemaplecafe/enhanced-website/js/enhanced-payment.js:160-267 | for the check as written and as intended: a submission places an order exactly when the method is cash, or card without Stripe, and the check lets the cart through; it is refused as an empty cart exactly when such a method meets a refused cart, and with its own message for any other method; the order holds the stored lines and only cash awaits payment |
| EnhancedPayment.CheckoutEmptiesCart | datemaplecafe/enhanced-website/js/enhanced-payment.js:356-373 | with the empty-cart check as intended, the cart cleared after an order makes every further submission refused |
| EnhancedPayment.SecondCheckoutAsWritten | datemaplecafe/enhanced-website/js/enhanced-payment.js:247-249 | with the check as written, a cash submission after cart.js cleared the cart is placed anyway, with no items, awaiting payment |
| AdminConsole.TokenExpiredAsWritten | datemaplecafe/enhanced-website/js/admin.js:45-57 | a missing token is expired, but a non-empty token whose third `-` field does not read as a number never is |
| AdminConsole.TokenExpired | datemaplecafe/enhanced-website/js/admin.js:45-57 | the corrected reading: a token whose time cannot be read counts as expired |
| AdminConsole.TokenExpiryReadings | datemaplecafe/enhanced-website/js/admin.js:45-57 | the two readings differ exactly on non-empty tokens whose time cannot be read |
| AdminConsole.UnreadableTokenNeverExpires | datemaplecafe/enhanced-website/js/admin.js:50-53 | the token `admin` never expires as written, and is expired under the corrected reading |
| AdminConsole.SplitNoSep | datemaplecafe/enhanced-website/js/admin.js:50 | splitting text without the separator gives the text alone |
| AdminConsole.SplitAfter | datemaplecafe/enhanced-website/js/admin.js:50 | splitting after a separator-free head gives the head, then the split of the rest |
| AdminConsole.LoginTokenExpiry | datemaplecafe/server.js:501 | the token issued at sign-in carries its issue time, and both readings call it expired exactly when more than 24 hours have passed |
| AdminConsole.AdminSession.constructor | datemaplecafe/enhanced-website/js/admin.js:7-8 | the session starts from the stored token and user |
| AdminConsole.AdminSession.IsAuthenticated | datemaplecafe/enhanced-website/js/admin.js:34-57 | as written: the dashboard needs a token, a user and, when the token's time reads as a number, an age of at most 24 hours; a token whose time cannot be read, such as `admin`, shows the dashboard at any time |
| AdminConsole.AdminSession.IsAuthenticatedIntended | datemaplecafe/enhanced-website/js/admin.js:34-57 | as the `catch` intends: the dashboard shows exactly with a user and a token whose time reads as a number at most 24 hours ago |
| AdminConsole.EmptyTokenUnreadable | datemaplecafe/enhanced-website/js/admin.js:50 | the empty token has no third field, so its time cannot be read |
| AdminConsole.AdminSession.SignIn | datemaplecafe/enhanced-website/js/admin.js:125-173 | a successful reply is kept in memory and in storage; a failed one shows its message, or "Login failed", and changes nothing |
| AdminConsole.AdminSession.Logout | datemaplecafe/enhanced-website/js/admin.js:176-200 | whether or not the request fails, both globals and both stored entries are cleared |
| AdminConsole.LoggedOutIsExpired | datemaplecafe/enhanced-website/js/admin.js:45-46 | with no token the console counts as signed out |
| AdminConsole.StaffListView.constructor | datemaplecafe/enhanced-website/js/admin.js:284-320 | after loading, the whole list is shown and counted (`updateStaffCount`, lines 400-405) |
| AdminConsole.StaffListView.FilterStaff | datemaplecafe/enhanced-website/js/admin.js:407-431 | the table shows the filtered list, `staffData` is restored, and the count is the filtered length |
| AdminConsole.FilterViewFacts | datemaplecafe/enhanced-website/js/admin.js:407-431 | the filtered table is a sublist of the directory holding exactly the matching members, and empty filters show everyone |
| AdminConsole.StaffFormRequest | datemaplecafe/enhanced-website/js/admin.js:902-948 | the form posts exactly when all six fields are filled, the password has at least 6 characters and matches its confirmation; the body has no username |
| AdminConsole.StaffFormAlwaysRefused | datemaplecafe/enhanced-website/js/admin.js:936-960 | every request the form lets through is refused by the server with "Username is required" |
| AdminConsole.StaffFormRequestWithUsername | datemaplecafe/enhanced-website/js/admin.js:924-931 | the corrected form posts the same body plus the username, exactly when the username is also filled |
| AdminConsole.StaffFormWithUsernameAccepted | datemaplecafe/server.js:543-610 | with the username sent, the server creates the member exactly when the username is free |
| AdminConsole.ResetRequest | datemaplecafe/enhanced-website/js/admin.js:659-681 | nothing for an unknown member or an empty prompt, an alert for fewer than 6 characters, otherwise the body `{password}` |
| AdminConsole.ResetAlwaysRefused | datemaplecafe/enhanced-website/js/admin.js:681 | the server reads `newPassword`, so every reset the prompt sends is refused as too short |
| AdminConsole.ResetRequestNamed | datemaplecafe/enhanced-website/js/admin.js:681 | the corrected request sends the same password under `newPassword`, in exactly the same cases |
| AdminConsole.ResetNamedAccepted | datemaplecafe/server.js:693-732 | the corrected reset succeeds exactly when the member is on the server's list |
| StaffModal.FormData.With | datemaplecafe/enhanced-website/frontend/src/components/StaffModal.js:40-46 | setting a field gives it the new value and leaves every other field as it was |
| StaffModal.InitForm | datemaplecafe/enhanced-website/frontend/src/components/StaffModal.js:17-38 | opening on a record copies its fields with an empty password, opening without one blanks every field, and the errors are cleared either way |
| StaffModal.HandleChange | datemaplecafe/enhanced-website/frontend/src/components/StaffModal.js:40-53 | the named field takes the value, no other field changes, and only that field's error is cleared |
| StaffModal.ValidateForm | datemaplecafe/enhanced-website/frontend/src/components/StaffModal.js:56-96 | the error map holds exactly one message per failing field, and the form passes exactly when the map is empty and the form is valid |
| StaffModal.RecordEveryField | datemaplecafe/enhanced-website/frontend/src/components/StaffModal.js:56-93 | recording each field's check once, in order, keeps exactly the failing checks with their messages |
| StaffModal.RecordSix | datemaplecafe/enhanced-website/frontend/src/components/StaffModal.js:59-92 | each of the six fields is in the map exactly when its own check produced a message |
| StaffModal.NoErrorsIffValid | datemaplecafe/enhanced-website/frontend/src/components/StaffModal.js:94-95 | `Object.keys(newErrors).length === 0` holds exactly when the form is valid |
| StaffModal.FieldErrorsMatchValid | datemaplecafe/enhanced-website/frontend/src/components/StaffModal.js:56-95 | a form is valid exactly when no field has an error message |
| StaffModal.ErrorMessages | datemaplecafe/enhanced-website/frontend/src/components/StaffModal.js:59-92 | each field fails exactly on its documented condition (blank role, names under 2 characters, email and phone blank or malformed, a password required when creating and at least 6 characters when given), with the documented message |
| StaffModal.HandleSubmit | datemaplecafe/enhanced-website/frontend/src/components/StaffModal.js:98-104 | the form goes to `onSubmit`, unchanged, exactly when it validates |
| StaffModal.BlankPasswordRule | datemaplecafe/enhanced-website/frontend/src/components/StaffModal.js:88-92 | a blank password stops a creation, and an edit with it passes exactly when the same form with a real password would |
| StaffPage.FormState.constructor | datemaplecafe/enhanced-website/js/staff.js:5-6 | the page starts with no edited record and an untouched username |
| StaffPage.FormState.ShowAddForm | datemaplecafe/enhanced-website/js/staff.js:76-89 | the add form edits no record and resets the username flag |
| StaffPage.FormState.ShowEditForm | datemaplecafe/enhanced-website/js/staff.js:108-153 | the form edits that record and resets the username flag; a record id of 0 reads as not editing |
| StaffPage.FormState.HideForm | datemaplecafe/enhanced-website/js/staff.js:169-172 | the edited record is forgotten and the username flag left alone |
| StaffPage.RequiredFields | datemaplecafe/enhanced-website/js/staff.js:351-360 | the five always-required fields, then the password only when creating |
| StaffPage.RequestBody | datemaplecafe/enhanced-website/js/staff.js:330-348 | the body has the trimmed username and the five fields, and a password exactly when creating |
| StaffPage.HandleFormSubmit | datemaplecafe/enhanced-website/js/staff.js:321-392 | the checks in source order (username, required fields, password length, username pattern) give their messages, and a form passing them all is POSTed when creating and PUT to the record when editing |
| StaffPage.CheckRequired | datemaplecafe/enhanced-website/js/staff.js:362-369 | the loop fails with "Please fill in all required fields" on a blank field, with the password message on a short new password, and passes otherwise |
| StaffPage.PassedFive | datemaplecafe/enhanced-website/js/staff.js:362-369 | passing the first five fields of the loop means none of them is blank |
| StaffPage.FailedOneOfFive | datemaplecafe/enhanced-website/js/staff.js:362-369 | a failing non-password field means some always-required field is blank |
| StaffPage.IntToString | datemaplecafe/enhanced-website/js/staff.js:380 | an integer's text is never empty |
| StaffPage.PasswordResetRequest | datemaplecafe/enhanced-website/js/staff.js:544-572 | a short password, then a mismatch, give their messages; otherwise `{newPassword}` is POSTed |
| StaffStats.CountRole | datemaplecafe/enhanced-website/frontend/src/pages/Dashboard.js:26-28 | a role's count is at most the number of members |
| StaffStats.CountByRole | datemaplecafe/enhanced-website/frontend/src/pages/Dashboard.js:24-33 | the loop counts each present role exactly, lists each once, lists no absent role, and the cards add up to the total |
| StaffStats.CountStep | datemaplecafe/enhanced-website/frontend/src/pages/Dashboard.js:27 | counting one more member raises only its role's count, by one |
| StaffStats.CountAbsent | datemaplecafe/enhanced-website/frontend/src/pages/Dashboard.js:27 | an absent role counts 0 |
| StaffStats.SumBump | datemaplecafe/enhanced-website/frontend/src/pages/Dashboard.js:27 | raising a listed role's count raises the cards' sum by one |
| StaffStats.SumFresh | datemaplecafe/enhanced-website/frontend/src/pages/Dashboard.js:27 | setting an unlisted role leaves the sum alone |
| StaffStats.SumAppend | datemaplecafe/enhanced-website/frontend/src/pages/Dashboard.js:27 | listing one more role adds its count to the sum |
| StaffStats.RoleLabel | datemaplecafe/enhanced-website/frontend/src/pages/Dashboard.js:95 | the label is the role, plus an `s` exactly when the count is not 1 |
| StaffStats.RoleIcon | datemaplecafe/enhanced-website/frontend/src/pages/Dashboard.js:43-49 | the fallback icon is used exactly for a role outside the five |
| StaffStats.DocumentedIdFormat | datemaplecafe/enhanced-website/frontend/src/pages/Dashboard.js:156-163 | from zero counters a role's first three identifiers use counters 1, 2, 3, written as prefix + 001, and any counter up to 999 gives five characters |
| StaffFilter.Filter | datemaplecafe/enhanced-website/js/admin.js:407-420 | every listed member matches the role filter and the search, and the list is never longer than the directory |
| StaffFilter.FilterMembers | datemaplecafe/enhanced-website/frontend/src/pages/Staff.js:168-177 | a member is listed exactly when it is in the directory and matches |
| StaffFilter.FilterIsSublist | datemaplecafe/enhanced-website/js/admin.js:412 | the filtered list keeps the directory's order |
| StaffFilter.SublistSkip | datemaplecafe/enhanced-website/js/admin.js:412 | a sublist of the tail is a sublist of the whole |
| StaffFilter.SublistDrop | datemaplecafe/enhanced-website/js/admin.js:412 | dropping the first element of a sublist keeps it a sublist |
| StaffFilter.NoFilterKeepsAll | datemaplecafe/enhanced-website/frontend/src/pages/Staff.js:169-170 | with no role filter and no search text the whole directory is listed |
| StaffFilter.QueryCaseIgnored | datemaplecafe/enhanced-website/js/admin.js:409 | the search ignores the case of the query |
| StaffListPage.HeaderCount | datemaplecafe/enhanced-website/frontend/src/pages/Staff.js:247 | the header count is at most the directory size, and equals it with no filter |
| StaffListPage.ResetPasswordRequest | datemaplecafe/enhanced-website/frontend/src/pages/Staff.js:93-106 | nothing for a cancelled or empty prompt, the length error for 1 to 5 characters, otherwise `{newPassword}` to the member's reset route |
| StaffListPage.ResetRequestAccepted | datemaplecafe/enhanced-website/frontend/src/pages/Staff.js:106 | every reset the page sends passes the back end's length check and succeeds exactly when the member still exists |
| StaffListPage.ModalSubmitCall | datemaplecafe/enhanced-website/frontend/src/pages/Staff.js:121-133 | an update of the selected member when one is selected, a create otherwise, with the form data unchanged |
| MenuViewer.Available | datemaplecafe/enhanced-website/frontend/src/components/MenuViewer.js:27-29 | the cashier's list is never longer and holds only available items from the menu |
| MenuViewer.InCategory | datemaplecafe/enhanced-website/frontend/src/components/MenuViewer.js:40-42 | the category filter is never longer and holds only that category's items from the menu |
| MenuViewer.InCategoryMembers | datemaplecafe/enhanced-website/frontend/src/components/MenuViewer.js:40-42 | an item is kept exactly when it is on the menu with that category id |
| MenuViewer.AvailableMembers | datemaplecafe/enhanced-website/frontend/src/components/MenuViewer.js:27-29 | an item is kept exactly when it is on the menu and available |
| MenuViewer.SelectedCategory | datemaplecafe/enhanced-website/frontend/src/components/MenuViewer.js:38-42 | choosing a category from the selector shows exactly that category's items |
| MenuViewer.CashierSeesAvailable | datemaplecafe/enhanced-website/frontend/src/components/MenuViewer.js:27-29 | a cashier sees an item exactly when it is available; other modes see every item |
| MenuViewer.HasCategoryLast | datemaplecafe/enhanced-website/frontend/src/components/MenuViewer.js:44-53 | a category list with one more category has an id exactly when the shorter list or the new category has it |
| MenuViewer.GroupedItemsFacts | datemaplecafe/enhanced-website/frontend/src/components/MenuViewer.js:44-53 | an id has a group exactly when a listed category has that id and a shown item is in it; the group holds exactly that category's shown items in order |
| MenuViewer.OrphanItemsHidden | datemaplecafe/enhanced-website/frontend/src/components/MenuViewer.js:44-53 | an item whose category matches no listed category is in no group |
| MenuViewer.EmptyMessage | datemaplecafe/enhanced-website/frontend/src/components/MenuViewer.js:121 | the groups are empty exactly when no shown item belongs to a listed category |
| MenuViewer.EmptyNotice | datemaplecafe/enhanced-website/frontend/src/components/MenuViewer.js:121-133 | the notice shows exactly when no shown item belongs to a listed category, titled "No menu items found" |
| MenuViewer.RenderedItems | datemaplecafe/enhanced-website/frontend/src/components/MenuViewer.js:44-53 | under "all", an item is rendered exactly when the view mode loads it and a listed category has its id |
| JsStrings.Trim | datemaplecafe/enhanced-website/frontend/src/components/StaffModal.js:59 | `trim()` is empty exactly for all-whitespace text, and otherwise starts and ends with a non-space |
| JsStrings.TrimShape | datemaplecafe/enhanced-website/frontend/src/components/StaffModal.js:59 | the same facts for trimming the start, then the end |
| JsStrings.ToLower | datemaplecafe/enhanced-website/js/admin.js:409 | lower-casing keeps the length |
| JsStrings.Split | datemaplecafe/enhanced-website/js/admin.js:50 | `split` gives at least one part, and no part holds the separator |
| JsStrings.JoinSplit | datemaplecafe/enhanced-website/js/cart.js:232-234 | joining the parts of a split with the separator gives back the text |
| JsStrings.NatToDecimal | datemaplecafe/enhanced-website/backend/config/database.js:191 | a number's decimal text is non-empty, all digits, and starts with 0 only for 0 |
| JsStrings.DecimalRoundTrip | datemaplecafe/enhanced-website/backend/config/database.js:191 | reading a number's decimal text gives the number back |
| JsStrings.PadStart | datemaplecafe/enhanced-website/backend/config/database.js:191 | `padStart` pads on the left to the width and never cuts a longer text |
| JsStrings.LeadingZerosValue | datemaplecafe/enhanced-website/backend/config/database.js:191 | leading zeros do not change a decimal's value |
| JsStrings.DigitPrefix | datemaplecafe/enhanced-website/frontend/src/components/MenuViewer.js:42 | the digits `parseInt` reads are the longest digit prefix of the text |
| JsStrings.ParseIntOfDigits | datemaplecafe/enhanced-website/frontend/src/components/MenuViewer.js:42 | `parseInt` of a non-empty digit string is its decimal value |
| JsStrings.ScanPlain | datemaplecafe/enhanced-website/js/main.js:99 | a single-quoted literal's plain characters are taken as they are |
| JsStrings.ScanEscape | datemaplecafe/enhanced-website/js/main.js:99 | a backslash escape contributes the escaped character |
| JsStrings.ScanClose | datemaplecafe/enhanced-website/js/main.js:99 | an unescaped apostrophe closes the literal |
| JsStrings.DoubledBackslashCloses | datemaplecafe/enhanced-website/js/main.js:99 | after text without quote or backslash, a doubled backslash and an apostrophe end the literal after one backslash, and the rest of the intended text is left outside it |
| JsStrings.EscapedQuoteReads | datemaplecafe/enhanced-website/js/payment.js:238 | a backslash-escaped apostrophe between two runs without quote or backslash reads as an apostrophe inside the literal, and the final quote closes it with nothing left over |

## Left out

- HTTP and storage plumbing are not modelled: Express routing and middleware, rate limiting, CORS, the sqlite and MySQL callbacks, `fetch`, and the JSON file reads and writes. Each store is an in-memory list or map.
- A `localStorage` entry that fails to parse is not modelled. A missing entry reads as its documented default.
- Password hashing (pbkdf2, bcrypt) and JWT signing and checking are not modelled. A hash is an opaque value passed in, and token verification is a parameter of `MenuRoutes.AuthDispatch`.
- The e-mail check of the validation library (`isEmail`) and its `isURL` are parameters. The React dialog's e-mail pattern is modelled exactly, in `FormRules`.
- Concurrency in `generateStaffId` is not modelled. Interleaved `db.serialize` callbacks are out of scope, and an allocation is one atomic step.
- Floating-point money is not modelled: `TAX_RATE`, `toFixed`, `Math.round(total * 100)`, `parseFloat` of option prices, and the revenue and rating averages of the stats endpoint. Prices are whole cents, and `isFloat` prices are read as integers.
- Number parsing covers optional-sign decimal integers only. `parseInt`'s `0x` prefix, exponent forms and precision beyond 2^53 are not modelled.
- `toLowerCase` and `toUpperCase` are modelled on ASCII letters only.
- Loose `==` between a numeric record id and the id text of a URL is not modelled. Ids are integers on both sides.
- Keys inherited from `Object.prototype` (for example `byRole['constructor']`) are not modelled.
- The order of `Object.keys` and `Object.values` over `groupedItems` is not modelled. `MenuViewer.GroupedItems` is a map with no order.
- A failed load of the menu data in `MenuViewer.js` is not modelled. The view is modelled on what was loaded.
- The menu category routes are not part of this model. Only the item routes are.
- E-mail sending is not modelled: `nodemailer` and its templates (`server.js:69-296`), and the interactive `setup-email.js`.
- The Stripe SDK (`initializeStripe`, `confirmCardPayment`) is not modelled. Whether Stripe is up and what the confirmation answers are parameters of `Payment.StripePaymentSpec`.
- The `setTimeout` delays of the simulated payments are not modelled. An express payment records its order in the same step.
- DOM and React rendering are not modelled: HTML strings other than the cart's options block, modals, notifications, routing, `App.js`, `Navbar.js`, the login pages and `MenuManagement.js`.
- The setup scripts and server bootstraps are not modelled (`create-admin.js`, `verify-admin.js`, `backend/server.js`, `test-server.js`), nor the axios wrappers in `frontend/src/services/api.js`.
- The clock and locale are parameters where a property needs them: `Date.now()` identifiers, ISO timestamps and the token age. `toLocaleDateString` is not modelled.
- Body keys of the staff update are spliced into the SQL text. A key that is not a column is an SQL error here. Keys that would inject SQL are read the same way.
- SQLite's column affinity is modelled only as far as the update needs it. Text put in an `INTEGER` or `DATETIME` column is stored as a number when the parameter `asInteger` reads it as one. Real-number text and the text columns' own affinity are not modelled.
- JSON booleans that the order route stores (`emailSent`) are written as the text `true` or `false`, since a stored order is a map of strings.
- JsonOrders.DataFiles.CreateOrder: the file read back for the second write is the file as first written. A request interleaved between the two writes is not modelled, and neither is a `customerInfo` that is `null`, which also throws.
- Cart.ShoppingCart.AddToCart: the option prices are summed as whole cents, not as floating-point `parseFloat` values.
- AdminConsole.AdminSession.Logout: whether the logout request succeeds is a parameter that does not change the outcome, as in the `finally` block. The request itself is not modelled.

## Findings

| source | as written | input that shows it | evidently intended | confidence | as-written member | corrected member |
|---|---|---|---|---|---|---|
| datemaplecafe/server.js:567-584 | a new staff id is the prefix plus (number of records with the role + 1) | Baristas BA001 and BA002; delete BA001; the next Barista gets BA002, which is still in use | ids are never reissued, e.g. from a per-prefix counter as `generateStaffId` keeps | high, not executed | JsonStaffDirectory.CountBasedIdRepeats | JsonStaffDirectory.CreateCountedKeepsStaffIdsUnique |
| datemaplecafe/enhanced-website/backend/routes/staff.js:159-363 | GET, PUT and DELETE by id call `pool`, which the file never imports | any request to `/:id` that passes validation, e.g. GET of an existing row | answer the row, or update or delete it, and answer 404 for a missing row | high, not executed | StaffRoutes.PoolRoutesAlwaysFail | StaffRoutes.UpdateFacts |
| datemaplecafe/enhanced-website/js/enhanced-payment.js:247-249 | the empty-cart check reads `.total` of what cart.js stores, which is a bare array | the stored cart `[]` that `clearCart` leaves: `[].total <= 0` is false, so checkout goes on and records an empty order | refuse a cart with no items or a total of at most 0 | high, not executed | EnhancedPayment.SecondCheckoutAsWritten | EnhancedPayment.CheckoutEmptiesCart |
| datemaplecafe/enhanced-website/js/payment.js:238 | the `incorrect_cvc` message literal has two backslashes before its apostrophe | the literal's text: the string closes after `card` and one backslash, and `s security` follows, which is a syntax error, so none of the script's functions exist | `'Your card\'s security code is incorrect.'` | high, not executed | Payment.CvcLiteralAsWritten | Payment.CvcLiteralIntended |
| datemaplecafe/enhanced-website/js/main.js:99 | the contact notice literal has two backslashes before its apostrophe | the literal's text: the string closes after `We` and one backslash, and `ll get back` follows, which is a syntax error, so the page script does not run | `'Thank you for your message! We\'ll get back to you soon.'` | high, not executed | Storefront.ContactNoticeAsWritten | Storefront.ContactNoticeIntended |
| datemaplecafe/enhanced-website/js/admin.js:45-57 | the age check `Date.now() - tokenTime > maxAge` is false when `tokenTime` is `NaN`, and nothing throws, so the `catch` never answers | the stored token `admin`: it has no third field, so it never expires | a token whose time cannot be read counts as expired, as the `catch` suggests | medium, not executed | AdminConsole.UnreadableTokenNeverExpires | AdminConsole.TokenExpired |
| datemaplecafe/enhanced-website/js/admin.js:924-931 | the add-staff form posts no `username`, which `server.js:550-552` requires | any form that passes the checks, e.g. role Barista with all fields filled and the password `secret1` twice | send the username as well | high, not executed | AdminConsole.StaffFormAlwaysRefused | AdminConsole.StaffFormWithUsernameAccepted |
| datemaplecafe/enhanced-website/js/admin.js:681 | the reset prompt posts `{password}`, but `server.js:696` reads `newPassword` | the answer `secret1`: the server refuses it as shorter than 6 | post `{newPassword}` | high, not executed | AdminConsole.ResetAlwaysRefused | AdminConsole.ResetNamedAccepted |
