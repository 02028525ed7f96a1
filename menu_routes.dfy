/** The menu API (backend/routes/menu.js): the token middleware that looks the
    caller up in the staff or the admin table, the Admin-or-Manager gate, item
    creation with its validators and defaults, the update-statement builder and
    the 404 on an update or delete that changes no row. */
module MenuRoutes {
  import opened Wrappers
  import opened JsStrings
  import opened Requests

  /** A JSON value as the routes see it. Numbers are integers here (a price in
      cents); `Undefined` is a property that is present with no value. */
  datatype Value = Undefined | Null | Bool(b: bool) | Num(n: int) | Str(s: string)

  /** JavaScript truthiness of a value. */
  predicate Truthy(v: Value) {
    match v
    case Undefined => false
    case Null => false
    case Bool(b) => b
    case Num(n) => n != 0
    case Str(s) => s != ""
  }

  /** `a || b`. */
  function Or(a: Value, b: Value): Value {
    if Truthy(a) then a else b
  }

  /** The text a validator checks: what the validation library makes of the value
      (`undefined` and `null` become the empty string). */
  function ToText(v: Value): string {
    match v
    case Undefined => ""
    case Null => ""
    case Bool(b) => if b then "true" else "false"
    case Num(n) => if n < 0 then "-" + NatToDecimal(-n) else NatToDecimal(n)
    case Str(s) => s
  }

  /** A request body: property name to value. */
  type Body = map<string, Value>

  /** A property that is there with a value; `.optional()` skips the others. */
  predicate Present(body: Body, key: string) {
    key in body && body[key] != Undefined
  }

  function Get(body: Body, key: string): Value {
    if key in body then body[key] else Undefined
  }

  // ---------------------------------------------------------------- failures

  datatype Failure =
    | ValidationFailed(errors: seq<ItemRule>)
    | Failed(status: nat, message: string)

  const NoToken := Failed(401, "Access denied. No token provided.")
  const InvalidToken := Failed(401, "Invalid token.")
  const NotEditor := Failed(403, "Access denied. Admin or Manager role required.")
  const NoValidFields := Failed(400, "No valid fields to update")
  const ItemNotFound := Failed(404, "Menu item not found")

  // ---------------------------------------------------------------- authentication

  /** What a verified token carries. */
  datatype Claims = Claims(userType: Option<string>, userId: int)

  /** The row the middleware reads: a staff member has a role, an admin none. */
  datatype Account = Account(id: int, role: Option<string>)

  /** `req.user`: the row read and the caller's type. */
  datatype User = User(id: int, role: Option<string>, userType: string)

  /** The token after the first `Bearer ` in the header is removed. */
  function StripBearer(header: string): (token: string)
    ensures |token| <= |header|
  {
    if |header| < 7 then header
    else if header[..7] == "Bearer " then header[7..]
    else [header[0]] + StripBearer(header[1..])
  }

  /** `verifyAuthToken`. Token verification is the parameter `verify` (`None` when
      the signature or expiry is refused); a `staff` token is looked up in
      `staff_members`, every other token in `admin_users`. */
  function VerifyAuthToken(header: Option<string>, verify: string -> Option<Claims>,
                           staff: map<int, Account>, admins: map<int, Account>): (r: Result<User, Failure>)
  {
    var token := if header.Some? then StripBearer(header.value) else "";
    if token == "" then Err(NoToken)
    else
      var claims := verify(token);
      if claims.None? then Err(InvalidToken)
      else if claims.value.userType == Some("staff") then
        if claims.value.userId in staff then
          var row := staff[claims.value.userId];
          Ok(User(row.id, row.role, "staff"))
        else Err(InvalidToken)
      else if claims.value.userId in admins then
        var row := admins[claims.value.userId];
        Ok(User(row.id, row.role, "admin"))
      else Err(InvalidToken)
  }

  /** The middleware answers 401 exactly when there is no token, the token is
      refused, or its user is not in the table its type names; a `staff` token is
      resolved against the staff table alone, any other against the admin table
      alone. */
  lemma AuthDispatch(header: Option<string>, verify: string -> Option<Claims>,
                     staff: map<int, Account>, admins: map<int, Account>)
    ensures var r := VerifyAuthToken(header, verify, staff, admins);
            var token := if header.Some? then StripBearer(header.value) else "";
            && (r.Ok? <==> token != "" && verify(token).Some?
                           && (if verify(token).value.userType == Some("staff") then verify(token).value.userId in staff
                               else verify(token).value.userId in admins))
            && (r.Err? ==> r.error.status == 401)
            && (r.Ok? && r.value.userType == "staff" ==>
                  verify(token).value.userType == Some("staff") && r.value.role == staff[verify(token).value.userId].role)
            && (r.Ok? && r.value.userType != "staff" ==>
                  r.value.userType == "admin" && r.value.role == admins[verify(token).value.userId].role)
  {
  }

  /** `canEditMenu`. */
  function CanEditMenu(user: User): (r: Option<Failure>)
    ensures r.None? <==> user.userType == "admin" || user.role == Some("Manager")
    ensures r.Some? ==> r.value == NotEditor
  {
    if user.userType == "admin" || user.role == Some("Manager") then None else Some(NotEditor)
  }

  // ---------------------------------------------------------------- validators

  /** The item validators, each standing for its `withMessage` text. */
  datatype ItemRule =
    | NameRequired | NameLength | DescriptionLength | InvalidPrice | InvalidCategory
    | InvalidImageUrl | AllergensLength | PreparationTime
  {
    function Message(): string {
      match this
      case NameRequired => "Item name is required (1-100 characters)"
      case NameLength => "Item name must be 1-100 characters"
      case DescriptionLength => "Description must be less than 500 characters"
      case InvalidPrice => "Price must be a positive number"
      case InvalidCategory => "Valid category ID is required"
      case InvalidImageUrl => "Image URL must be valid"
      case AllergensLength => "Allergens must be less than 255 characters"
      case PreparationTime => "Preparation time must be 1-120 minutes"
    }
  }

  /** The integer a validator reads in the text: an optional sign and at least one
      decimal digit, nothing else. */
  function IntText(t: string): (r: Option<int>)
    ensures r.Some? ==> t != []
  {
    if t == [] then None
    else if t[0] == '+' || t[0] == '-' then
      if |t| > 1 && AllDigits(t[1..]) then
        var v: int := ParseDecimal(t[1..]);
        Some(if t[0] == '-' then -v else v)
      else None
    else if AllDigits(t) then Some(ParseDecimal(t))
    else None
  }

  /** `isInt({ min: lo, max: hi })`. */
  predicate IntIn(v: Value, lo: int, hi: Option<int>) {
    var n := IntText(ToText(v));
    n.Some? && lo <= n.value && (hi.Some? ==> n.value <= hi.value)
  }

  /** `isFloat({ min: 0 })`, on the integer numbers of this model. */
  predicate NonNegative(v: Value) {
    var n := IntText(ToText(v));
    n.Some? && n.value >= 0
  }

  /** `isLength({ max: m })`. */
  predicate AtMost(v: Value, m: nat) {
    |ToText(v)| <= m
  }

  /** `body('name').trim()`: the sanitizer rewrites the property when it is there. */
  function SanitizeName(body: Body): (clean: Body)
    ensures clean.Keys == body.Keys
    ensures forall k :: k in body && k != "name" ==> clean[k] == body[k]
    ensures Present(body, "name") ==> clean["name"] == Str(Trim(ToText(body["name"])))
  {
    if Present(body, "name") then body["name" := Str(Trim(ToText(body["name"])))] else body
  }

  /** The seven create rules in declaration order, each failed one listed. */
  function Validate7(name: bool, description: bool, price: bool, category: bool, imageUrl: bool,
                     allergens: bool, preparation: bool): (errors: seq<ItemRule>)
    ensures errors == [] <==> name && description && price && category && imageUrl && allergens && preparation
    ensures forall rule :: rule in errors <==> || (rule == NameRequired && !name)
                                               || (rule == DescriptionLength && !description)
                                               || (rule == InvalidPrice && !price)
                                               || (rule == InvalidCategory && !category)
                                               || (rule == InvalidImageUrl && !imageUrl)
                                               || (rule == AllergensLength && !allergens)
                                               || (rule == PreparationTime && !preparation)
  {
    var head := RequiredChecks(name, description, price);
    var tail := OptionalChecks(category, imageUrl, allergens, preparation);
    assert forall rule :: rule in head + tail <==> rule in head || rule in tail;
    head + tail
  }

  /** The first three create rules. */
  function RequiredChecks(name: bool, description: bool, price: bool): (errors: seq<ItemRule>)
    ensures errors == [] <==> name && description && price
    ensures forall rule :: rule in errors <==> || (rule == NameRequired && !name)
                                               || (rule == DescriptionLength && !description)
                                               || (rule == InvalidPrice && !price)
  {
    Check(name, NameRequired) + Check(description, DescriptionLength) + Check(price, InvalidPrice)
  }

  /** The last four create rules. */
  function OptionalChecks(category: bool, imageUrl: bool, allergens: bool, preparation: bool): (errors: seq<ItemRule>)
    ensures errors == [] <==> category && imageUrl && allergens && preparation
    ensures forall rule :: rule in errors <==> || (rule == InvalidCategory && !category)
                                               || (rule == InvalidImageUrl && !imageUrl)
                                               || (rule == AllergensLength && !allergens)
                                               || (rule == PreparationTime && !preparation)
  {
    Check(category, InvalidCategory) + Check(imageUrl, InvalidImageUrl) + Check(allergens, AllergensLength)
    + Check(preparation, PreparationTime)
  }

  /** The four update rules in declaration order. */
  function Validate4(name: bool, description: bool, price: bool, category: bool): (errors: seq<ItemRule>)
    ensures errors == [] <==> name && description && price && category
    ensures forall rule :: rule in errors <==> || (rule == NameLength && !name)
                                               || (rule == DescriptionLength && !description)
                                               || (rule == InvalidPrice && !price)
                                               || (rule == InvalidCategory && !category)
  {
    Check(name, NameLength) + Check(description, DescriptionLength) + Check(price, InvalidPrice)
    + Check(category, InvalidCategory)
  }

  /** The create validators on the sanitized body: a name of 1 to 100 characters
      after trimming, price and category always checked, the other four only when
      given. The library's `isURL` is the parameter `isUrl`. */
  function CreateItemErrors(body: Body, isUrl: string -> bool): (errors: seq<ItemRule>)
    ensures errors == [] <==> && 1 <= |ToText(Get(body, "name"))| <= 100
                              && (Present(body, "description") ==> AtMost(body["description"], 500))
                              && NonNegative(Get(body, "price"))
                              && IntIn(Get(body, "categoryId"), 1, None)
                              && (Present(body, "imageUrl") ==> isUrl(ToText(body["imageUrl"])))
                              && (Present(body, "allergens") ==> AtMost(body["allergens"], 255))
                              && (Present(body, "preparationTime") ==> IntIn(body["preparationTime"], 1, Some(120)))
  {
    Validate7(1 <= |ToText(Get(body, "name"))| <= 100,
              !Present(body, "description") || AtMost(body["description"], 500),
              NonNegative(Get(body, "price")),
              IntIn(Get(body, "categoryId"), 1, None),
              !Present(body, "imageUrl") || isUrl(ToText(body["imageUrl"])),
              !Present(body, "allergens") || AtMost(body["allergens"], 255),
              !Present(body, "preparationTime") || IntIn(body["preparationTime"], 1, Some(120)))
  }

  /** The update validators, every one optional. */
  function UpdateItemErrors(body: Body): (errors: seq<ItemRule>)
    ensures errors == [] <==> && (Present(body, "name") ==> 1 <= |ToText(body["name"])| <= 100)
                              && (Present(body, "description") ==> AtMost(body["description"], 500))
                              && (Present(body, "price") ==> NonNegative(body["price"]))
                              && (Present(body, "categoryId") ==> IntIn(body["categoryId"], 1, None))
  {
    Validate4(!Present(body, "name") || 1 <= |ToText(body["name"])| <= 100,
              !Present(body, "description") || AtMost(body["description"], 500),
              !Present(body, "price") || NonNegative(body["price"]),
              !Present(body, "categoryId") || IntIn(body["categoryId"], 1, None))
  }

  // ---------------------------------------------------------------- create

  /** A stored item: column name to value. */
  type MenuRow = map<string, Value>

  /** The flags are stored as 1 or 0. */
  function Flag(on: bool): Value {
    if on then Num(1) else Num(0)
  }

  /** The row the `INSERT` writes: `description || null`, `imageUrl || null`,
      `isAvailable !== false ? 1 : 0`, `isFeatured === true ? 1 : 0`,
      `allergens || null`, `preparationTime || 5`, `displayOrder || 0`, and the
      creator only for an admin. */
  function NewItem(body: Body, user: User): MenuRow {
    map[ "name" := Get(body, "name"),
         "description" := Or(Get(body, "description"), Null),
         "price" := Get(body, "price"),
         "category_id" := Get(body, "categoryId"),
         "image_url" := Or(Get(body, "imageUrl"), Null),
         "is_available" := Flag(Get(body, "isAvailable") != Bool(false)),
         "is_featured" := Flag(Get(body, "isFeatured") == Bool(true)),
         "allergens" := Or(Get(body, "allergens"), Null),
         "preparation_time" := Or(Get(body, "preparationTime"), Num(5)),
         "display_order" := Or(Get(body, "displayOrder"), Num(0)),
         "created_by" := if user.userType == "admin" then Num(user.id) else Null ]
  }

  /** The defaults of a new item: available unless the body says `false`, featured
      only when it says `true`, preparation time 5 and display order 0 when not
      given (or falsy), no creator recorded for a staff member. */
  lemma NewItemDefaults(body: Body, user: User)
    ensures var row := NewItem(body, user);
            && (row["is_available"] == Num(0) <==> Get(body, "isAvailable") == Bool(false))
            && (row["is_available"] == Num(1) <==> Get(body, "isAvailable") != Bool(false))
            && (row["is_featured"] == Num(1) <==> Get(body, "isFeatured") == Bool(true))
            && (row["is_featured"] == Num(0) <==> Get(body, "isFeatured") != Bool(true))
            && (!Truthy(Get(body, "preparationTime")) ==> row["preparation_time"] == Num(5))
            && (Truthy(Get(body, "preparationTime")) ==> row["preparation_time"] == body["preparationTime"])
            && (!Truthy(Get(body, "displayOrder")) ==> row["display_order"] == Num(0))
            && (!Truthy(Get(body, "description")) ==> row["description"] == Null)
            && (row["created_by"] != Null <==> user.userType == "admin")
  {
  }

  /** POST /items after the token check: the gate, the validators, the insert. */
  function CreateItemSpec(items: map<int, MenuRow>, user: User, body: Body, isUrl: string -> bool, newId: int)
    : (Result<int, Failure>, map<int, MenuRow>)
  {
    var clean := SanitizeName(body);
    var errors := CreateItemErrors(clean, isUrl);
    if CanEditMenu(user).Some? then (Err(CanEditMenu(user).value), items)
    else if errors != [] then (Err(ValidationFailed(errors)), items)
    else (Ok(newId), items[newId := NewItem(clean, user)])
  }

  // ---------------------------------------------------------------- update builder

  /** What one `[key, value]` entry contributes to the SET list. A value that is
      `undefined`, and a key outside the ten known ones, contribute nothing. */
  function EntryColumn(key: string, value: Value): (cols: seq<(string, Value)>)
    ensures |cols| <= 1
  {
    if value == Undefined then []
    else if key == "categoryId" then [("category_id", value)]
    else if key == "imageUrl" then [("image_url", value)]
    else if key == "isAvailable" then [("is_available", Flag(Truthy(value)))]
    else if key == "isFeatured" then [("is_featured", Flag(Truthy(value)))]
    else if key == "preparationTime" then [("preparation_time", value)]
    else if key == "displayOrder" then [("display_order", value)]
    else if key in ["name", "description", "price", "allergens"] then [(key, value)]
    else []
  }

  /** The request keys the builder accepts. */
  predicate Accepted(key: string) {
    key in ["categoryId", "imageUrl", "isAvailable", "isFeatured", "preparationTime", "displayOrder",
            "name", "description", "price", "allergens"]
  }

  /** The column of an accepted key. */
  function ColumnOf(key: string): string {
    if key == "categoryId" then "category_id"
    else if key == "imageUrl" then "image_url"
    else if key == "isAvailable" then "is_available"
    else if key == "isFeatured" then "is_featured"
    else if key == "preparationTime" then "preparation_time"
    else if key == "displayOrder" then "display_order"
    else key
  }

  /** The SET list for the entries of the body, in their order. */
  function MenuColumns(entries: seq<(string, Value)>): (cols: seq<(string, Value)>)
    ensures |cols| <= |entries|
  {
    if entries == [] then []
    else
      var last := entries[|entries| - 1];
      MenuColumns(entries[..|entries| - 1]) + EntryColumn(last.0, last.1)
  }

  /** One entry contributes a column exactly when its key is accepted and its
      value is not `undefined`; the column is the key's, and the value is the
      entry's, or 1/0 for the two flags. */
  lemma EntryColumnFacts(key: string, value: Value)
    ensures var cols := EntryColumn(key, value);
            && (cols != [] <==> Accepted(key) && value != Undefined)
            && (cols != [] ==> cols[0].0 == ColumnOf(key))
            && (cols != [] && key != "isAvailable" && key != "isFeatured" ==> cols[0].1 == value)
            && (cols != [] && (key == "isAvailable" || key == "isFeatured") ==> cols[0].1 == Flag(Truthy(value)))
  {
  }

  /** Every accepted entry with a value is in the SET list under its column. */
  lemma {:induction false} MenuColumnsComplete(entries: seq<(string, Value)>)
    ensures var cols := MenuColumns(entries);
            forall i :: 0 <= i < |entries| && Accepted(entries[i].0) && entries[i].1 != Undefined ==>
              EntryColumn(entries[i].0, entries[i].1)[0] in cols
  {
    if entries != [] {
      var init := entries[..|entries| - 1];
      MenuColumnsComplete(init);
      assert forall i :: 0 <= i < |init| ==> entries[i] == init[i];
      var last := entries[|entries| - 1];
      EntryColumnFacts(last.0, last.1);
    }
  }

  /** Every column in the SET list comes from an accepted entry with a value. */
  lemma {:induction false} MenuColumnsSound(entries: seq<(string, Value)>, p: (string, Value))
    requires p in MenuColumns(entries)
    ensures exists i :: 0 <= i < |entries| && Accepted(entries[i].0) && entries[i].1 != Undefined && p.0 == ColumnOf(entries[i].0)
  {
    var init := entries[..|entries| - 1];
    var last := entries[|entries| - 1];
    EntryColumnFacts(last.0, last.1);
    if p in MenuColumns(init) {
      MenuColumnsSound(init, p);
      var i :| 0 <= i < |init| && Accepted(init[i].0) && init[i].1 != Undefined && p.0 == ColumnOf(init[i].0);
      assert entries[i] == init[i];
    } else {
      assert p == EntryColumn(last.0, last.1)[0];
      assert entries[|entries| - 1] == last;
    }
  }

  /** The SET list is empty, and the route answers "No valid fields to update",
      exactly when no entry is both accepted and defined. */
  lemma {:induction false} MenuColumnsEmpty(entries: seq<(string, Value)>)
    ensures MenuColumns(entries) == [] <==> forall i :: 0 <= i < |entries| ==> !Accepted(entries[i].0) || entries[i].1 == Undefined
  {
    if entries != [] {
      var init := entries[..|entries| - 1];
      var last := entries[|entries| - 1];
      MenuColumnsEmpty(init);
      EntryColumnFacts(last.0, last.1);
      assert forall i :: 0 <= i < |init| ==> entries[i] == init[i];
    }
  }

  /** The statement the route runs: its SET fields and the values bound to them. */
  datatype Statement = Statement(fields: seq<string>, values: seq<Value>)
  {
    function Sql(): string {
      "UPDATE menu_items SET " + Join(fields, ", ") + " WHERE id = ?"
    }
  }

  /** The `forEach` that pushes onto `updateFields` and `updateValues`, then the
      400 when nothing was pushed, then `updated_at` and the id. */
  method BuildMenuUpdate(entries: seq<(string, Value)>, id: int) returns (r: Result<Statement, Failure>)
    ensures var cols := MenuColumns(entries);
            && (r.Err? <==> cols == []) && (r.Err? ==> r.error == NoValidFields)
            && (r.Ok? ==> && |r.value.fields| == |cols| + 1 && |r.value.values| == |cols| + 1
                          && (forall i :: 0 <= i < |cols| ==> r.value.fields[i] == cols[i].0 + " = ?" && r.value.values[i] == cols[i].1)
                          && r.value.fields[|cols|] == "updated_at = CURRENT_TIMESTAMP"
                          && r.value.values[|cols|] == Num(id))
  {
    var fields: seq<string> := [];
    var values: seq<Value> := [];
    var i := 0;
    while i < |entries|
      invariant 0 <= i <= |entries|
      invariant SetList(fields, values, MenuColumns(entries[..i]))
    {
      var (key, value) := entries[i];
      ghost var before := MenuColumns(entries[..i]);
      assert entries[..i + 1][..i] == entries[..i];
      var col := EntryColumn(key, value);
      assert MenuColumns(entries[..i + 1]) == before + col;
      if col != [] {
        assert col == [(col[0].0, col[0].1)];
        SetListPush(fields, values, before, col[0].0, col[0].1);
        fields := fields + [col[0].0 + " = ?"];
        values := values + [col[0].1];
      } else {
        assert before + col == before;
      }
      i := i + 1;
    }
    assert entries[..i] == entries;
    if fields == [] {
      return Err(NoValidFields);
    }
    fields := fields + ["updated_at = CURRENT_TIMESTAMP"];
    values := values + [Num(id)];
    return Ok(Statement(fields, values));
  }

  /** The columns as a map, a later column overriding an earlier one. */
  function ColumnMap(cols: seq<(string, Value)>): (m: map<string, Value>)
    ensures forall p :: p in cols ==> p.0 in m
    ensures forall c :: c in m ==> exists p :: p in cols && p.0 == c
  {
    if cols == [] then map[]
    else
      var last := cols[|cols| - 1];
      var m := ColumnMap(cols[..|cols| - 1]);
      assert forall p :: p in cols[..|cols| - 1] ==> p in cols;
      assert forall p :: p in cols ==> p in cols[..|cols| - 1] || p == last;
      m[last.0 := last.1]
  }

  /** The entries after `body('name').optional().trim()` rewrote a given name. */
  function SanitizeEntries(entries: seq<(string, Value)>): (clean: seq<(string, Value)>)
    ensures |clean| == |entries|
    ensures forall i :: 0 <= i < |entries| ==> clean[i].0 == entries[i].0 && (clean[i].1 == Undefined <==> entries[i].1 == Undefined)
    ensures forall i :: 0 <= i < |entries| && entries[i].0 != "name" ==> clean[i] == entries[i]
  {
    if entries == [] then []
    else
      var e := entries[0];
      [if e.0 == "name" && e.1 != Undefined then ("name", Str(Trim(ToText(e.1)))) else e] + SanitizeEntries(entries[1..])
  }

  /** PUT /items/:id after the token check, on the body's entries. `now` is
      `CURRENT_TIMESTAMP`. */
  function UpdateItemSpec(items: map<int, MenuRow>, user: User, entries: seq<(string, Value)>, id: int, now: Value)
    : (r: Result<int, Failure>)
  {
    var clean := SanitizeEntries(entries);
    var errors := UpdateItemErrors(BodyOf(clean));
    if CanEditMenu(user).Some? then Err(CanEditMenu(user).value)
    else if errors != [] then Err(ValidationFailed(errors))
    else if MenuColumns(clean) == [] then Err(NoValidFields)
    else if id !in items then Err(ItemNotFound)
    else Ok(id)
  }

  /** The row after a successful update: the requested columns and `updated_at`. */
  function UpdatedRow(row: MenuRow, entries: seq<(string, Value)>, now: Value): MenuRow {
    row + ColumnMap(MenuColumns(entries)) + map["updated_at" := now]
  }

  // ---------------------------------------------------------------- the table

  class MenuTable {
    var items: map<int, MenuRow>

    constructor (items0: map<int, MenuRow>)
      ensures items == items0
    {
      items := items0;
    }

    /** POST /items. `newId` is the key the database hands out. */
    method CreateItem(user: User, body: Body, isUrl: string -> bool, newId: int) returns (reply: Result<int, Failure>)
      requires newId !in items
      modifies this
      ensures (reply, items) == CreateItemSpec(old(items), user, body, isUrl, newId)
    {
      var denied := CanEditMenu(user);
      if denied.Some? {
        return Err(denied.value);
      }
      var clean := SanitizeName(body);
      var errors := CreateItemErrors(clean, isUrl);
      if errors != [] {
        return Err(ValidationFailed(errors));
      }
      items := items[newId := NewItem(clean, user)];
      return Ok(newId);
    }

    /** PUT /items/:id: the gate, the validators, the builder, then the statement;
      `this.changes === 0` is a 404. */
    method UpdateItem(user: User, entries: seq<(string, Value)>, id: int, now: Value) returns (reply: Result<int, Failure>)
      modifies this
      ensures reply == UpdateItemSpec(old(items), user, entries, id, now)
      ensures reply.Ok? ==> items == old(items)[id := UpdatedRow(old(items)[id], SanitizeEntries(entries), now)]
      ensures reply.Err? ==> items == old(items)
    {
      var denied := CanEditMenu(user);
      if denied.Some? {
        return Err(denied.value);
      }
      var clean := SanitizeEntries(entries);
      var errors := UpdateItemErrors(BodyOf(clean));
      if errors != [] {
        return Err(ValidationFailed(errors));
      }
      reply := WriteUpdate(clean, id, now);
    }

    /** The builder, then the statement, for a body that passed: 400 for an empty
        SET list, 404 when no row changed. */
    method WriteUpdate(clean: seq<(string, Value)>, id: int, now: Value) returns (reply: Result<int, Failure>)
      modifies this
      ensures MenuColumns(clean) == [] ==> reply == Err(NoValidFields)
      ensures MenuColumns(clean) != [] ==> reply == if id in old(items) then Ok(id) else Err(ItemNotFound)
      ensures reply.Ok? ==> items == old(items)[id := UpdatedRow(old(items)[id], clean, now)]
      ensures reply.Err? ==> items == old(items)
    {
      var statement := BuildMenuUpdate(clean, id);
      if statement.Err? {
        return Err(statement.error);
      }
      if id !in items {
        return Err(ItemNotFound);
      }
      items := items[id := UpdatedRow(items[id], clean, now)];
      return Ok(id);
    }

    /** DELETE /items/:id. */
    method DeleteItem(user: User, id: int) returns (reply: Result<int, Failure>)
      modifies this
      ensures CanEditMenu(user).Some? ==> reply == Err(NotEditor) && items == old(items)
      ensures CanEditMenu(user).None? ==> (reply == Err(ItemNotFound) <==> id !in old(items))
      ensures reply.Ok? ==> items == old(items) - {id} && reply.value == id
      ensures reply.Err? ==> items == old(items)
    {
      var denied := CanEditMenu(user);
      if denied.Some? {
        return Err(denied.value);
      }
      if id !in items {
        return Err(ItemNotFound);
      }
      items := items - {id};
      return Ok(id);
    }
  }

  /** A create succeeds exactly for an editor with a valid body, and then adds the
      one row; every refusal leaves the table as it was. */
  lemma CreateItemFacts(items: map<int, MenuRow>, user: User, body: Body, isUrl: string -> bool, newId: int)
    requires newId !in items
    ensures var (reply, after) := CreateItemSpec(items, user, body, isUrl, newId);
            && (reply.Ok? <==> (user.userType == "admin" || user.role == Some("Manager"))
                               && CreateItemErrors(SanitizeName(body), isUrl) == [])
            && (reply.Ok? ==> after.Keys == items.Keys + {newId} && forall k :: k in items ==> after[k] == items[k])
            && (reply.Err? ==> after == items)
  {
    var clean := SanitizeName(body);
    if CanEditMenu(user).None? && CreateItemErrors(clean, isUrl) == [] {
      InsertKeeps(items, newId, NewItem(clean, user));
    }
  }

  /** Inserting under a fresh id adds that key and keeps every other row. */
  lemma InsertKeeps(items: map<int, MenuRow>, newId: int, row: MenuRow)
    requires newId !in items
    ensures items[newId := row].Keys == items.Keys + {newId}
    ensures forall k :: k in items ==> items[newId := row][k] == items[k]
  {
    assert items[newId := row].Keys == items.Keys + {newId};
  }

  /** The name a create stores is the body's name with the white space at both ends
      removed, and it is never blank. */
  lemma CreatedNameTrimmed(items: map<int, MenuRow>, user: User, body: Body, isUrl: string -> bool, newId: int)
    requires newId !in items
    ensures var (reply, after) := CreateItemSpec(items, user, body, isUrl, newId);
            reply.Ok? ==> && Present(body, "name") && after[newId]["name"] == Str(Trim(ToText(body["name"])))
                          && 1 <= |Trim(ToText(body["name"]))| <= 100
  {
    var clean := SanitizeName(body);
    if CanEditMenu(user).None? && CreateItemErrors(clean, isUrl) == [] {
      NameFromErrors(clean, isUrl);
      SanitizedName(body);
      var row := NewItem(clean, user);
      NewItemName(clean, user);
      assert CreateItemSpec(items, user, body, isUrl, newId) == (Ok(newId), items[newId := row]);
    }
  }

  lemma NameFromErrors(body: Body, isUrl: string -> bool)
    requires CreateItemErrors(body, isUrl) == []
    ensures 1 <= |ToText(Get(body, "name"))| <= 100
  { }

  lemma NewItemName(body: Body, user: User)
    ensures "name" in NewItem(body, user) && NewItem(body, user)["name"] == Get(body, "name")
  { }

  lemma SanitizedName(body: Body)
    requires ToText(Get(SanitizeName(body), "name")) != ""
    ensures Present(body, "name") && Get(SanitizeName(body), "name") == Str(Trim(ToText(body["name"])))
  {
  }

  /** An update answers in this order: 403 for a caller who may not edit, 400 for a
      failed validator, 400 when no accepted field is given, 404 for an unknown
      id. */
  lemma UpdateItemOrder(items: map<int, MenuRow>, user: User, entries: seq<(string, Value)>, id: int, now: Value)
    ensures var r := UpdateItemSpec(items, user, entries, id, now);
            && (r == Err(NotEditor) <==> !(user.userType == "admin" || user.role == Some("Manager")))
            && (r == Err(NoValidFields) ==> forall i :: 0 <= i < |entries| ==> !Accepted(entries[i].0) || entries[i].1 == Undefined)
            && (r == Err(ItemNotFound) ==> id !in items)
            && (r.Ok? ==> id in items && r.value == id && MenuColumns(SanitizeEntries(entries)) != [])
  {
    var clean := SanitizeEntries(entries);
    var errors := UpdateItemErrors(BodyOf(clean));
    var r := UpdateItemSpec(items, user, entries, id, now);
    if CanEditMenu(user).Some? {
      assert r == Err(NotEditor);
    } else if errors != [] {
      assert r == Err(ValidationFailed(errors));
    } else if MenuColumns(clean) == [] {
      MenuColumnsEmpty(clean);
      assert r == Err(NoValidFields);
    } else if id !in items {
      assert r == Err(ItemNotFound);
    } else {
      assert r == Ok(id);
    }
  }

  /** A successful update changes the row's requested columns and `updated_at`
      and nothing else in it. */
  lemma UpdatedRowKeeps(row: MenuRow, entries: seq<(string, Value)>, now: Value)
    ensures var after := UpdatedRow(row, entries, now);
            && after["updated_at"] == now
            && after.Keys == row.Keys + ColumnMap(MenuColumns(entries)).Keys + {"updated_at"}
            && (forall c :: c in row && c != "updated_at" && c !in ColumnMap(MenuColumns(entries)) ==> after[c] == row[c])
            && (forall c :: c in ColumnMap(MenuColumns(entries)) && c != "updated_at" ==> after[c] == ColumnMap(MenuColumns(entries))[c])
  {
    MergeKeeps(row, ColumnMap(MenuColumns(entries)), now);
  }

  lemma MergeKeeps(row: MenuRow, columns: map<string, Value>, now: Value)
    ensures var after := row + columns + map["updated_at" := now];
            && after["updated_at"] == now
            && after.Keys == row.Keys + columns.Keys + {"updated_at"}
            && (forall c :: c in row && c != "updated_at" && c !in columns ==> after[c] == row[c])
            && (forall c :: c in columns && c != "updated_at" ==> after[c] == columns[c])
  {
  }
}
