/** The user list of the administrator's panel, `src/components/UserManagement.jsx`:
    a search over names and email and a status filter; administrators are never listed. */
module UserManagement {
  import Seqs
  import Strings

  /** A row of `GET /admin/users` as the panel reads it. */
  datatype UserRow = UserRow(id: int, firstName: string, lastName: string, email: string,
                             isActive: bool, role: string)

  /** `matchesSearch`: the lower-cased search text occurs in the lower-cased first name,
      last name or email. */
  predicate MatchesSearch(u: UserRow, searchTerm: string)
  {
    var q := Strings.LowerAscii(searchTerm);
    Strings.Includes(Strings.LowerAscii(u.firstName), q)
    || Strings.Includes(Strings.LowerAscii(u.lastName), q)
    || Strings.Includes(Strings.LowerAscii(u.email), q)
  }

  /** `matchesFilter` for the select's values `all`, `active` and `inactive`. */
  predicate MatchesFilter(u: UserRow, filterStatus: string)
  {
    filterStatus == "all" || (filterStatus == "active" && u.isActive) || (filterStatus == "inactive" && !u.isActive)
  }

  predicate Shown(u: UserRow, searchTerm: string, filterStatus: string)
  {
    MatchesSearch(u, searchTerm) && MatchesFilter(u, filterStatus) && u.role != "admin"
  }

  /** `filteredUsers` */
  function FilteredUsers(users: seq<UserRow>, searchTerm: string, filterStatus: string): (r: seq<UserRow>)
    ensures |r| <= |users|
    ensures forall k :: 0 <= k < |r| ==> r[k].role != "admin"
  {
    Seqs.Filter(users, (u: UserRow) => Shown(u, searchTerm, filterStatus))
  }

  /** The empty string occurs in every string, so an empty search hides no one. */
  lemma EmptySearchMatches(u: UserRow)
    ensures MatchesSearch(u, "")
  {
    assert Strings.IsPrefix("", Strings.LowerAscii(u.firstName));
  }

  /** A user is listed exactly when the search and the status filter match and the user is
      not an administrator; the list keeps the order of `users`, and filtering it again
      changes nothing. */
  lemma FilteredUsersSpec(users: seq<UserRow>, searchTerm: string, filterStatus: string)
    ensures var r := FilteredUsers(users, searchTerm, filterStatus);
            && (forall u :: u in r <==> u in users && MatchesSearch(u, searchTerm)
                                        && MatchesFilter(u, filterStatus) && u.role != "admin")
            && Seqs.IsSubsequence(r, users)
            && FilteredUsers(r, searchTerm, filterStatus) == r
  {
    var p := (u: UserRow) => Shown(u, searchTerm, filterStatus);
    Seqs.FilterMembers(users, p);
    Seqs.FilterIsSubsequence(users, p);
    Seqs.FilterIdempotent(users, p);
  }

  /** With no search and the `all` status every user but the administrators is listed,
      and `active` and `inactive` split them. */
  lemma StatusFilterSpec(users: seq<UserRow>)
    ensures FilteredUsers(users, "", "all") == Seqs.Filter(users, (u: UserRow) => u.role != "admin")
    ensures forall u :: u in FilteredUsers(users, "", "active") <==> u in users && u.role != "admin" && u.isActive
    ensures forall u :: u in FilteredUsers(users, "", "inactive") <==> u in users && u.role != "admin" && !u.isActive
  {
    forall u: UserRow ensures MatchesSearch(u, "") {
      EmptySearchMatches(u);
    }
    Seqs.FilterExt(users, (u: UserRow) => Shown(u, "", "all"), (u: UserRow) => u.role != "admin");
    FilteredUsersSpec(users, "", "active");
    FilteredUsersSpec(users, "", "inactive");
  }

  /** A status other than `all`, `active` and `inactive` lists no one. */
  lemma UnknownStatusHidesAll(users: seq<UserRow>, searchTerm: string, status: string)
    requires status != "all" && status != "active" && status != "inactive"
    ensures FilteredUsers(users, searchTerm, status) == []
  {
    var r := FilteredUsers(users, searchTerm, status);
    if r != [] {
      Seqs.First(r);
      assert false;
    }
  }
}
