/** The directory store (`useUsersStore`): the fetched user list, a search
    over six text fields, a status filter derived from the parity of the
    user id, and the same pagination record as the catalog store. Users are
    read-only here. */
module Directory {
  import opened Outcomes
  import opened Seqs
  import opened Paging
  import Text

  datatype Name = Name(firstname: string, lastname: string)

  datatype Geolocation = Geolocation(lat: string, long: string)

  datatype Address = Address(city: string, street: string, number: int, zipcode: string, geolocation: Geolocation)

  datatype User = User(
    id: int,
    email: string,
    username: string,
    password: string,
    name: Name,
    address: Address,
    phone: string)

  /** The values of the status select: `"all" | "active" | "inactive"`. */
  datatype Status = All | Active | Inactive

  datatype Filters = Filters(search: string, status: Status)

  const InitialFilters: Filters := Filters("", All)

  datatype State = State(
    users: seq<User>,
    originalUsers: seq<User>,
    filteredUsers: seq<User>,
    loading: bool,
    error: Option<string>,
    filters: Filters,
    pagination: Pagination)

  const Initial: State := State([], [], [], false, None, InitialFilters, Paging.Initial)

  // ---------------------------------------------------------------------
  // Status derived from the id
  // ---------------------------------------------------------------------

  /** JavaScript's `id % 2`: the remainder of the division truncated
      toward zero, so it takes the sign of the id: 1 for odd ids from 0 on,
      -1 for negative odd ids, 0 for even ids. */
  function JsRemTwo(id: int): (r: int)
    ensures r == 0 <==> id % 2 == 0
    ensures r == 1 <==> id >= 0 && id % 2 == 1
    ensures r == -1 <==> id < 0 && id % 2 == 1
    ensures -1 <= r <= 1
  {
    if id >= 0 then id % 2 else -((-id) % 2)
  }

  /** The users table's `getUserStatus`: odd ids (`id % 2 === 1`) are
      active, every other id is inactive. */
  function TableStatus(id: int): Status
  {
    if JsRemTwo(id) == 1 then Active else Inactive
  }

  /** What the status filter keeps: `"active"` keeps `id % 2 === 1`,
      `"inactive"` keeps `id % 2 === 0`, `"all"` keeps everyone. */
  predicate StatusKeeps(status: Status, u: User)
  {
    match status
    case All => true
    case Active => JsRemTwo(u.id) == 1
    case Inactive => JsRemTwo(u.id) == 0
  }

  /** The filter agrees with the status the table shows: "active" keeps
      exactly the users shown active, and every user "inactive" keeps is
      shown inactive. The converse holds for ids from 0 on; a negative odd
      id (`-3 % 2 === -1`) is shown inactive yet kept by neither filter. */
  lemma StatusFilterAgreesWithTable(u: User)
    ensures StatusKeeps(Active, u) <==> TableStatus(u.id) == Active
    ensures StatusKeeps(Inactive, u) ==> TableStatus(u.id) == Inactive
    ensures u.id >= 0 ==> (StatusKeeps(Inactive, u) <==> TableStatus(u.id) == Inactive)
    ensures u.id < 0 && u.id % 2 == 1 ==> TableStatus(u.id) == Inactive && !StatusKeeps(Active, u) && !StatusKeeps(Inactive, u)
  {
  }

  // ---------------------------------------------------------------------
  // Filter engine
  // ---------------------------------------------------------------------

  /** The term occurs, ignoring case, in the first name, last name, email,
      username, phone or city. */
  predicate SearchHit(term: string, u: User)
  {
    || Text.ContainsIgnoringCase(u.name.firstname, term)
    || Text.ContainsIgnoringCase(u.name.lastname, term)
    || Text.ContainsIgnoringCase(u.email, term)
    || Text.ContainsIgnoringCase(u.username, term)
    || Text.ContainsIgnoringCase(u.phone, term)
    || Text.ContainsIgnoringCase(u.address.city, term)
  }

  /** The reference meaning of the criteria: both active predicates hold. */
  predicate Matches(f: Filters, u: User)
  {
    (f.search == "" || SearchHit(f.search, u)) && StatusKeeps(f.status, u)
  }

  function SearchKeep(term: string): User -> bool
  {
    (u: User) => SearchHit(term, u)
  }

  function ParityKeep(rem: int): User -> bool
  {
    (u: User) => JsRemTwo(u.id) == rem
  }

  /** The filter pipeline of `applyFilters` as written: the search, then the
      status filter, each narrowing the previous result. The outcome is the
      order-preserving subsequence of `all` holding exactly the users that
      pass both, each as often as in `all`. */
  function FilterUsers(all: seq<User>, f: Filters): (r: seq<User>)
    ensures IsSubseq(r, all)
    ensures forall u :: multiset(r)[u] == if Matches(f, u) then multiset(all)[u] else 0
  {
    var afterSearch := if f.search != "" then Filter(all, SearchKeep(f.search)) else all;
    IsSubseqRefl(all);
    match f.status
    case All => afterSearch
    case Active =>
      IsSubseqTrans(Filter(afterSearch, ParityKeep(1)), afterSearch, all);
      Filter(afterSearch, ParityKeep(1))
    case Inactive =>
      IsSubseqTrans(Filter(afterSearch, ParityKeep(0)), afterSearch, all);
      Filter(afterSearch, ParityKeep(0))
  }

  /** A list whose every user passes the criteria comes through the pipeline
      unchanged. */
  lemma FilterUsersKeepsMatching(s: seq<User>, f: Filters)
    requires forall i :: 0 <= i < |s| ==> Matches(f, s[i])
    ensures FilterUsers(s, f) == s
  {
    var r := FilterUsers(s, f);
    forall u
      ensures multiset(r)[u] == multiset(s)[u]
    {
      if u in multiset(s) {
        var i :| 0 <= i < |s| && s[i] == u;
        assert Matches(f, u);
      }
    }
    assert multiset(r) == multiset(s);
    assert |r| == |multiset(r)|;
    SubseqOfSameLength(r, s);
  }

  /** Filter idempotence for the directory. */
  lemma FilterUsersIdempotent(all: seq<User>, f: Filters)
    ensures FilterUsers(FilterUsers(all, f), f) == FilterUsers(all, f)
  {
    var r := FilterUsers(all, f);
    forall i | 0 <= i < |r|
      ensures Matches(f, r[i])
    {
      assert r[i] in multiset(r);
    }
    FilterUsersKeepsMatching(r, f);
  }

  /** When no id is negative, "active" and "inactive" split the users the
      search keeps: every such user lands in exactly one of the two views. */
  lemma StatusPartition(all: seq<User>, search: string)
    requires forall i :: 0 <= i < |all| ==> all[i].id >= 0
    ensures multiset(FilterUsers(all, Filters(search, Active))) + multiset(FilterUsers(all, Filters(search, Inactive)))
         == multiset(FilterUsers(all, Filters(search, All)))
    ensures multiset(FilterUsers(all, Filters(search, Active))) !! multiset(FilterUsers(all, Filters(search, Inactive)))
  {
    var act := FilterUsers(all, Filters(search, Active));
    var inact := FilterUsers(all, Filters(search, Inactive));
    var both := FilterUsers(all, Filters(search, All));
    forall u
      ensures multiset(act)[u] + multiset(inact)[u] == multiset(both)[u]
      ensures multiset(act)[u] == 0 || multiset(inact)[u] == 0
    {
      if u in multiset(all) {
        var i :| 0 <= i < |all| && all[i] == u;
        assert u.id >= 0;
      }
    }
    assert multiset(act) + multiset(inact) == multiset(both);
  }

  /** A user record with the given id and empty text fields. */
  function UserWithId(id: int): User
  {
    User(id, "", "", "", Name("", ""), Address("", "", 0, "", Geolocation("", "")), "")
  }

  /** The odd-id filter, one element at a time. */
  lemma OddIdsExample(u1: User, u2: User, u3: User, u4: User, u5: User)
    requires u1.id == 1 && u2.id == 2 && u3.id == 3 && u4.id == 4 && u5.id == 5
    ensures Filter([u1, u2, u3, u4, u5], ParityKeep(1)) == [u1, u3, u5]
  {
    var k := ParityKeep(1);
    assert [u1, u2, u3, u4, u5][1..] == [u2, u3, u4, u5];
    assert [u2, u3, u4, u5][1..] == [u3, u4, u5];
    assert [u3, u4, u5][1..] == [u4, u5];
    assert [u4, u5][1..] == [u5];
    assert [u5][1..] == [];
    calc {
      Filter([u1, u2, u3, u4, u5], k);
      [u1] + Filter([u2, u3, u4, u5], k);
      [u1] + Filter([u3, u4, u5], k);
      [u1] + ([u3] + Filter([u4, u5], k));
      [u1] + ([u3] + Filter([u5], k));
      [u1] + ([u3] + ([u5] + Filter([], k)));
    }
  }

  /** "active" on the users with ids 1 to 5 keeps exactly 1, 3 and 5, in
      that order. */
  lemma ActiveExample()
    ensures FilterUsers([UserWithId(1), UserWithId(2), UserWithId(3), UserWithId(4), UserWithId(5)], Filters("", Active))
         == [UserWithId(1), UserWithId(3), UserWithId(5)]
  {
    OddIdsExample(UserWithId(1), UserWithId(2), UserWithId(3), UserWithId(4), UserWithId(5));
  }

  // ---------------------------------------------------------------------
  // Store state and actions
  // ---------------------------------------------------------------------

  /** The derived state agrees with the authoritative state: both user lists
      are the same list, the view is the pipeline's output, and the counts
      describe the view. Every action keeps it. */
  ghost predicate Consistent(s: State)
  {
    && s.users == s.originalUsers
    && s.filteredUsers == FilterUsers(s.originalUsers, s.filters)
    && s.pagination.totalItems == |s.filteredUsers|
    && s.pagination.totalPages == CeilDiv(s.pagination.totalItems, s.pagination.itemsPerPage)
  }

  lemma InitialConsistent()
    ensures Consistent(Initial)
  {
    assert FilterUsers([], InitialFilters) == [] by {
      SubseqShorter(FilterUsers([], InitialFilters), []);
    }
  }

  /** `applyFilters`: recomputes the view from `originalUsers`, then the
      count, the page count, and the current page clamped to `totalPages ||
      1`. Nothing else changes. */
  function ApplyFilters(s: State): (r: State)
    ensures r == s.(filteredUsers := r.filteredUsers, pagination := r.pagination)
    ensures IsSubseq(r.filteredUsers, s.originalUsers)
    ensures forall u :: multiset(r.filteredUsers)[u] == if Matches(s.filters, u) then multiset(s.originalUsers)[u] else 0
    ensures r.pagination.itemsPerPage == s.pagination.itemsPerPage
    ensures r.pagination.totalItems == |r.filteredUsers|
    ensures (r.pagination.totalPages - 1) * r.pagination.itemsPerPage < |r.filteredUsers| <= r.pagination.totalPages * r.pagination.itemsPerPage
    ensures s.pagination.currentPage >= 1 ==> 1 <= r.pagination.currentPage <= LastPage(r.pagination.totalPages)
    ensures r.pagination.currentPage <= s.pagination.currentPage
    ensures r.pagination == Recount(s.pagination, |r.filteredUsers|)
    ensures s.users == s.originalUsers ==> Consistent(r)
  {
    var filtered := FilterUsers(s.originalUsers, s.filters);
    s.(filteredUsers := filtered, pagination := Recount(s.pagination, |filtered|))
  }

  /** `setSearch`: stores the term, goes back to page 1 and refilters; page 1
      survives the clamp whatever the new count. */
  function SetSearch(s: State, search: string): (r: State)
    ensures r.filters == s.filters.(search := search)
    ensures r.pagination.currentPage == 1 && r.pagination.itemsPerPage == s.pagination.itemsPerPage
    ensures r.filteredUsers == FilterUsers(s.originalUsers, r.filters)
    ensures r == s.(filters := r.filters, filteredUsers := r.filteredUsers, pagination := r.pagination)
    ensures Consistent(s) ==> Consistent(r)
  {
    ApplyFilters(s.(filters := s.filters.(search := search), pagination := s.pagination.(currentPage := 1)))
  }

  /** `setStatus`: as `setSearch`, for the status criterion. */
  function SetStatus(s: State, status: Status): (r: State)
    ensures r.filters == s.filters.(status := status)
    ensures r.pagination.currentPage == 1 && r.pagination.itemsPerPage == s.pagination.itemsPerPage
    ensures r.filteredUsers == FilterUsers(s.originalUsers, r.filters)
    ensures r == s.(filters := r.filters, filteredUsers := r.filteredUsers, pagination := r.pagination)
    ensures Consistent(s) ==> Consistent(r)
  {
    ApplyFilters(s.(filters := s.filters.(status := status), pagination := s.pagination.(currentPage := 1)))
  }

  /** `setPage`: stores the page as given, without clamping it and without
      refiltering. */
  function SetPage(s: State, page: int): (r: State)
    ensures r.pagination.currentPage == page
    ensures r.pagination.totalPages == s.pagination.totalPages && r.pagination.totalItems == s.pagination.totalItems
    ensures r.pagination.itemsPerPage == s.pagination.itemsPerPage
    ensures r == s.(pagination := r.pagination)
    ensures Consistent(s) ==> Consistent(r)
  {
    s.(pagination := s.pagination.(currentPage := page))
  }

  /** `setItemsPerPage`: page 1 and a page count recomputed from the count
      already held, without refiltering. */
  function SetItemsPerPage(s: State, itemsPerPage: Pos): (r: State)
    ensures r.pagination.itemsPerPage == itemsPerPage && r.pagination.currentPage == 1
    ensures r.pagination.totalItems == s.pagination.totalItems
    ensures (r.pagination.totalPages - 1) * itemsPerPage < s.pagination.totalItems <= r.pagination.totalPages * itemsPerPage
    ensures r == s.(pagination := r.pagination)
    ensures Consistent(s) ==> Consistent(r)
  {
    s.(pagination := Resize(s.pagination, itemsPerPage))
  }

  /** `resetFilters`: an empty search, status "all" and the initial
      pagination, then a refilter, which shows the whole list. */
  function ResetFilters(s: State): (r: State)
    ensures r.filters == Filters("", All)
    ensures r.filteredUsers == s.originalUsers
    ensures r.pagination.currentPage == 1 && r.pagination.itemsPerPage == 10
    ensures r.pagination.totalItems == |s.originalUsers|
    ensures r.pagination.totalPages == CeilDiv(|s.originalUsers|, 10)
    ensures r == s.(filters := r.filters, filteredUsers := r.filteredUsers, pagination := r.pagination)
    ensures Consistent(s) ==> Consistent(r)
  {
    FilterUsersKeepsMatching(s.originalUsers, InitialFilters);
    ApplyFilters(s.(filters := InitialFilters, pagination := Paging.Initial))
  }

  /** `fetchUsers` once the request has settled: a loaded list becomes both
      user lists and is refiltered; a failure only records the message. */
  function FetchUsers(s: State, response: ApiResult<seq<User>>): (r: State)
    ensures !r.loading
    ensures response.Ok? ==>
      && r.users == response.value && r.originalUsers == response.value
      && r.filteredUsers == FilterUsers(response.value, s.filters)
      && r.error == None && Consistent(r)
      && r.filters == s.filters
      && r.pagination == Recount(s.pagination, |r.filteredUsers|)
    ensures response.Failed? ==> r == s.(loading := false, error := Some(response.message))
  {
    match response
    case Ok(list) => ApplyFilters(s.(users := list, originalUsers := list, loading := false, error := None))
    case Failed(message) => s.(loading := false, error := Some(message))
  }

  /** `clearError`: drops the recorded error and nothing else. */
  function ClearError(s: State): (r: State)
    ensures r.error == None
    ensures r.(error := s.error) == s
    ensures Consistent(s) ==> Consistent(r)
  {
    s.(error := None)
  }

}
