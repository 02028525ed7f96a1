/** The per-role staff statistics of the React dashboard (pages/Dashboard.js
    `fetchStats`) and of the back-office script (js/admin.js
    `displayDashboardStats`): one pass over the staff list that raises
    `byRole[member.role]`, the total, and the label and icon of each card. */
module StaffStats {
  import opened Wrappers
  import opened JsStrings
  import opened RoleCounters

  /** How many members have the given role. */
  function CountRole(roles: seq<string>, role: string): (n: nat)
    ensures n <= |roles|
  {
    if roles == [] then 0
    else CountRole(roles[..|roles| - 1], role) + (if roles[|roles| - 1] == role then 1 else 0)
  }

  predicate Distinct(keys: seq<string>) {
    forall i, j :: 0 <= i < j < |keys| ==> keys[i] != keys[j]
  }

  /** The counts of the cards, in the order `Object.entries` lists them. */
  function SumCounts(keys: seq<string>, byRole: map<string, nat>): nat
    requires forall k :: k in keys ==> k in byRole
  {
    if keys == [] then 0 else byRole[keys[0]] + SumCounts(keys[1..], byRole)
  }

  /** The `forEach` loop: `byRole[member.role] = (byRole[member.role] || 0) + 1`.
      `keys` is the order in which roles were first seen, which is the order the
      cards are drawn in. */
  method CountByRole(roles: seq<string>) returns (keys: seq<string>, byRole: map<string, nat>)
    ensures forall r :: r in byRole <==> r in roles
    ensures forall r :: r in byRole ==> byRole[r] == CountRole(roles, r) && byRole[r] >= 1
    ensures Distinct(keys) && forall r :: r in keys <==> r in byRole
    ensures SumCounts(keys, byRole) == |roles|
  {
    keys := [];
    byRole := map[];
    var i := 0;
    while i < |roles|
      invariant 0 <= i <= |roles|
      invariant Tally(roles[..i], keys, byRole)
    {
      var role := roles[i];
      assert roles[..i + 1] == roles[..i] + [role];
      if role in byRole {
        TallyBump(roles[..i], keys, byRole, role);
        byRole := byRole[role := byRole[role] + 1];
      } else {
        TallyFresh(roles[..i], keys, byRole, role);
        byRole := byRole[role := 1];
        keys := keys + [role];
      }
      i := i + 1;
    }
    assert roles[..i] == roles;
  }

  /** The loop invariant after the members `seen`: every seen role is counted
      exactly and listed once, and the listed counts add up to the members seen. */
  ghost predicate Tally(seen: seq<string>, keys: seq<string>, byRole: map<string, nat>) {
    && (forall r :: r in byRole <==> r in seen)
    && (forall r :: r in byRole ==> byRole[r] == CountRole(seen, r) && byRole[r] >= 1)
    && Distinct(keys) && (forall r :: r in keys <==> r in byRole)
    && SumCounts(keys, byRole) == |seen|
  }

  lemma TallyBump(seen: seq<string>, keys: seq<string>, byRole: map<string, nat>, role: string)
    requires Tally(seen, keys, byRole) && role in byRole
    ensures Tally(seen + [role], keys, byRole[role := byRole[role] + 1])
  {
    CountAppend(seen, role);
    SumBump(keys, byRole, role);
  }

  lemma TallyFresh(seen: seq<string>, keys: seq<string>, byRole: map<string, nat>, role: string)
    requires Tally(seen, keys, byRole) && role !in byRole
    ensures Tally(seen + [role], keys + [role], byRole[role := 1])
  {
    CountAppend(seen, role);
    CountAbsent(seen, role);
    SumFresh(keys, byRole, role, 1);
    SumAppend(keys, byRole[role := 1], role);
  }

  lemma CountAppend(seen: seq<string>, role: string)
    ensures forall r :: CountRole(seen + [role], r) == CountRole(seen, r) + (if role == r then 1 else 0)
    ensures forall r :: r in seen + [role] <==> r in seen || r == role
  {
    assert (seen + [role])[..|seen|] == seen;
  }

  /** Counting one more member adds one to its role's count only. */
  lemma CountStep(roles: seq<string>, i: nat)
    requires i < |roles|
    ensures forall r :: CountRole(roles[..i + 1], r) == CountRole(roles[..i], r) + (if roles[i] == r then 1 else 0)
    ensures forall r :: r in roles[..i + 1] <==> r in roles[..i] || r == roles[i]
  {
    assert roles[..i + 1][..i] == roles[..i];
    assert roles[..i + 1] == roles[..i] + [roles[i]];
  }

  lemma {:induction false} CountAbsent(roles: seq<string>, role: string)
    requires role !in roles
    ensures CountRole(roles, role) == 0
  {
    if roles != [] {
      assert roles[..|roles| - 1] <= roles;
      CountAbsent(roles[..|roles| - 1], role);
    }
  }

  /** Raising the count of a key listed once raises the sum by one. */
  lemma {:induction false} SumBump(keys: seq<string>, byRole: map<string, nat>, role: string)
    requires Distinct(keys) && forall k :: k in keys ==> k in byRole
    requires role in keys
    ensures SumCounts(keys, byRole[role := byRole[role] + 1]) == SumCounts(keys, byRole) + 1
  {
    var m := byRole[role := byRole[role] + 1];
    if keys[0] == role {
      assert role !in keys[1..];
      SumFresh(keys[1..], byRole, role, byRole[role] + 1);
    } else {
      SumBump(keys[1..], byRole, role);
    }
  }

  /** Setting a key not listed leaves the sum alone. */
  lemma {:induction false} SumFresh(keys: seq<string>, byRole: map<string, nat>, role: string, v: nat)
    requires forall k :: k in keys ==> k in byRole
    requires role !in keys
    ensures SumCounts(keys, byRole[role := v]) == SumCounts(keys, byRole)
  {
    if keys != [] {
      SumFresh(keys[1..], byRole, role, v);
    }
  }

  /** Listing one more key adds its count. */
  lemma {:induction false} SumAppend(keys: seq<string>, byRole: map<string, nat>, role: string)
    requires forall k :: k in keys ==> k in byRole
    requires role in byRole
    ensures SumCounts(keys + [role], byRole) == SumCounts(keys, byRole) + byRole[role]
  {
    if keys == [] {
      assert [role][1..] == [];
    } else {
      SumAppend(keys[1..], byRole, role);
      assert (keys + [role])[1..] == keys[1..] + [role];
    }
  }

  /** `${role}${count !== 1 ? 's' : ''}`. */
  function RoleLabel(role: string, count: nat): (text: string)
    ensures |text| == |role| || |text| == |role| + 1
    ensures text[..|role|] == role
    ensures |text| == |role| + 1 <==> count != 1
  {
    role + (if count != 1 then "s" else "")
  }

  /** `roleIcons[role] || 'fas fa-user'`. */
  function RoleIcon(role: string): (icon: string)
    ensures icon == "fas fa-user" <==> !IsRole(role)
  {
    if role == "Manager" then "fas fa-user-tie"
    else if role == "Barista" then "fas fa-coffee"
    else if role == "Cashier" then "fas fa-cash-register"
    else if role == "Baker" then "fas fa-bread-slice"
    else if role == "Cleaner" then "fas fa-broom"
    else "fas fa-user"
  }

  /** The dashboard's note on identifiers: a role's first three identifiers after
      the counters start at zero are its prefix followed by 001, 002 and 003, and
      every value up to 999 gives prefix + three digits. */
  lemma DocumentedIdFormat(role: string, n: nat)
    requires IsRole(role) && 1 <= n <= 999
    ensures var counters := map r | r in Roles :: 0;
            Issue(counters, [role, role, role]) == [Some(1), Some(2), Some(3)]
    ensures |FormatStaffId(RolePrefix(role), n)| == 5
    ensures FormatStaffId(RolePrefix(role), 1) == RolePrefix(role) + "001"
  {
    var counters := map r | r in Roles :: 0;
    assert counters[role] == 0;
    var c1 := counters[role := 1];
    var c2 := c1[role := 2];
    assert [role, role, role][1..] == [role, role];
    assert [role, role][1..] == [role];
    assert Issue(c2, [role]) == [Some(3)];
    assert Issue(c1, [role, role]) == [Some(2), Some(3)];
    assert NatToDecimal(1) == "1";
    assert Repeat('0', 2) == "00";
  }
}
