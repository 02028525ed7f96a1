/** The staff-list filter shared, word for word, by the back-office script
    (js/admin.js `filterStaff`) and the React staff page (pages/Staff.js
    `filteredStaff`): a role filter and a case-insensitive search over four columns. */
module StaffFilter {
  import opened JsStrings

  /** The columns of a staff record the lists show and search. */
  datatype StaffSummary = StaffSummary(id: int, staffId: string, role: string, firstName: string, lastName: string, email: string)

  /** `!roleFilter || member.role === roleFilter`. */
  predicate MatchesRole(m: StaffSummary, roleFilter: string) {
    roleFilter == "" || m.role == roleFilter
  }

  /** The search test for an already lower-cased query. */
  predicate MatchesSearch(m: StaffSummary, query: string) {
    || query == ""
    || Includes(ToLower(m.firstName), query)
    || Includes(ToLower(m.lastName), query)
    || Includes(ToLower(m.email), query)
    || Includes(ToLower(m.staffId), query)
  }

  predicate Matches(m: StaffSummary, roleFilter: string, query: string) {
    MatchesRole(m, roleFilter) && MatchesSearch(m, ToLower(query))
  }

  /** `staff.filter(member => matchesRole && matchesSearch)`. */
  function Filter(staff: seq<StaffSummary>, roleFilter: string, query: string): (r: seq<StaffSummary>)
    ensures |r| <= |staff|
    ensures forall k :: 0 <= k < |r| ==> Matches(r[k], roleFilter, query)
  {
    if staff == [] then []
    else
      var rest := Filter(staff[1..], roleFilter, query);
      if Matches(staff[0], roleFilter, query) then [staff[0]] + rest else rest
  }

  /** A record is listed exactly when it is in the directory and matches. */
  lemma {:induction false} FilterMembers(staff: seq<StaffSummary>, roleFilter: string, query: string, m: StaffSummary)
    ensures m in Filter(staff, roleFilter, query) <==> m in staff && Matches(m, roleFilter, query)
  {
    if staff != [] {
      FilterMembers(staff[1..], roleFilter, query, m);
      assert staff == [staff[0]] + staff[1..];
    }
  }

  /** `a` is `b` with some elements left out and the rest kept in order. */
  predicate Sublist<T(==)>(a: seq<T>, b: seq<T>)
    decreases |b|
  {
    if a == [] then true
    else if b == [] then false
    else if a[0] == b[0] then Sublist(a[1..], b[1..])
    else Sublist(a, b[1..])
  }

  /** The filtered list keeps the directory's order. */
  lemma {:induction false} FilterIsSublist(staff: seq<StaffSummary>, roleFilter: string, query: string)
    ensures Sublist(Filter(staff, roleFilter, query), staff)
  {
    if staff != [] {
      FilterIsSublist(staff[1..], roleFilter, query);
      var rest := Filter(staff[1..], roleFilter, query);
      if !Matches(staff[0], roleFilter, query) && rest != [] {
        assert Sublist(rest, staff[1..]);
        SublistSkip(rest, staff);
      }
    }
  }

  lemma SublistSkip<T>(a: seq<T>, b: seq<T>)
    requires b != [] && Sublist(a, b[1..])
    ensures Sublist(a, b)
    decreases |b|, 0
  {
    if a != [] && a[0] == b[0] {
      SublistDrop(a, b[1..]);
    }
  }

  /** Dropping the first element of a sublist keeps it a sublist. */
  lemma {:induction false} SublistDrop<T>(a: seq<T>, b: seq<T>)
    requires a != [] && Sublist(a, b)
    ensures Sublist(a[1..], b)
    decreases |b|, 1
  {
    if b != [] {
      if a[0] == b[0] {
        if a[1..] != [] {
          SublistSkip(a[1..], b);
        }
      } else {
        SublistDrop(a, b[1..]);
        if a[1..] != [] {
          SublistSkip(a[1..], b);
        }
      }
    }
  }

  /** With no role filter and no search text the whole directory is listed. */
  lemma {:induction false} NoFilterKeepsAll(staff: seq<StaffSummary>)
    ensures Filter(staff, "", "") == staff
  {
    if staff != [] {
      NoFilterKeepsAll(staff[1..]);
      assert staff == [staff[0]] + staff[1..];
    }
  }

  /** The search ignores the case of the query. */
  lemma QueryCaseIgnored(m: StaffSummary, roleFilter: string, query: string)
    ensures Matches(m, roleFilter, query) <==> Matches(m, roleFilter, ToLower(query))
  {
    assert ToLower(ToLower(query)) == ToLower(query);
  }
}
