/**
 * The user DAO's search contract, as tests/Dao/UserDaoFilterTest.php pins it down: `save` adds a
 * user, and `findFilteredAndPaged(filter, pageNumber, pageSize)` orders every saved user by the
 * filter's order (or the DAO's default order when the filter names none), cuts out the requested
 * page, and reports the total count, the page number and size exactly as requested, and the filter.
 */
module Daos {
  import opened Results
  import opened UserOrdering
  import opened Paging

  /** A user search filter: the order to sort by; an empty order means the DAO's default. */
  datatype SearchFilter = SearchFilter(order: seq<OrderItem>)

  datatype PagedSearchResult = PagedSearchResult(
    entities: seq<User>,
    totalRecords: nat,
    pageNumber: int,
    pageSize: int,
    searchFilter: SearchFilter)

  datatype DaoError = InvalidPaging

  class UserDao {
    /** The saved users, in the order they were saved. */
    var users: seq<User>
    /** The order used when a filter names none. */
    const defaultOrder: seq<OrderItem>

    /** Each saved user's identity is its position in save order. */
    ghost predicate Valid()
      reads this
    {
      forall i :: 0 <= i < |users| ==> users[i].id == i
    }

    constructor (defaultOrder: seq<OrderItem>)
      ensures Valid()
      ensures users == [] && this.defaultOrder == defaultOrder
    {
      users := [];
      this.defaultOrder := defaultOrder;
    }

    /** `save`: stores a new user under the next identity and hands the stored user back. */
    method Save(user: User) returns (saved: User)
      requires Valid()
      modifies this
      ensures Valid()
      ensures saved == user.(id := |old(users)|)
      ensures users == old(users) + [saved]
    {
      saved := user.(id := |users|);
      users := users + [saved];
    }

    /** The order a search with `filter` sorts by. */
    function OrderFor(filter: SearchFilter): seq<OrderItem>
    {
      if filter.order == [] then defaultOrder else filter.order
    }

    /** All saved users in the order a search with `filter` returns them. */
    function Ordered(filter: SearchFilter): (r: seq<User>)
      reads this
      ensures |r| == |users|
    {
      Sort(OrderFor(filter), users)
    }

    /**
     * `findFilteredAndPaged`: the requested page of the ordered users, with the total count,
     * the requested page number and size, and the filter itself.
     */
    function FindFilteredAndPaged(filter: SearchFilter, pageNumber: int, pageSize: int)
      : (r: Result<PagedSearchResult, DaoError>)
      reads this
      ensures r.Ok? <==> pageNumber >= 1 && pageSize >= 1
      ensures r.Ok? ==> r.value.totalRecords == |users|
      ensures r.Ok? ==> r.value.pageNumber == pageNumber && r.value.pageSize == pageSize
      ensures r.Ok? ==> r.value.searchFilter == filter
      ensures r.Ok? ==> |r.value.entities| == Clamp(|users| - Offset(pageNumber, pageSize), 0, pageSize)
      ensures r.Ok? ==> forall k :: 0 <= k < |r.value.entities| ==>
                          r.value.entities[k] == Ordered(filter)[Offset(pageNumber, pageSize) + k]
      ensures r.Ok? ==> Sorted(OrderFor(filter), r.value.entities)
      ensures r.Ok? ==> multiset(r.value.entities) <= multiset(users)
    {
      if pageNumber < 1 || pageSize < 1 then Err(InvalidPaging)
      else
        var all := Ordered(filter);
        var page := Page(all, pageNumber, pageSize);
        PageOfSorted(OrderFor(filter), all, pageNumber, pageSize);
        Ok(PagedSearchResult(page, |users|, pageNumber, pageSize, filter))
    }
  }

  /** A page of a sorted sequence is sorted, and holds some of its entries. */
  lemma PageOfSorted(order: seq<OrderItem>, all: seq<User>, pageNumber: int, pageSize: int)
    requires pageNumber >= 1 && pageSize >= 1
    requires Sorted(order, all)
    ensures Sorted(order, Page(all, pageNumber, pageSize))
    ensures multiset(Page(all, pageNumber, pageSize)) <= multiset(all)
  {
    var page := Page(all, pageNumber, pageSize);
    var offset := Offset(pageNumber, pageSize);
    forall i, j | 0 <= i < j < |page| ensures Compare(order, page[i], page[j]) <= 0 {
      assert page[i] == all[offset + i] && page[j] == all[offset + j];
    }
    if page != [] {
      assert offset + |page| <= |all|;
      assert page == all[offset..offset + |page|];
      assert all == all[..offset] + page + all[offset + |page|..];
    }
  }

  /** Reading all pages of one size in turn yields every saved user exactly once, in the search order. */
  lemma PagesListEveryUserOnce(dao: UserDao, filter: SearchFilter, pageSize: int, count: nat)
    requires pageSize >= 1 && count * pageSize >= |dao.users|
    ensures Pages(dao.Ordered(filter), pageSize, count) == dao.Ordered(filter)
    ensures multiset(dao.Ordered(filter)) == multiset(dao.users)
  {
    PagesCoverAll(dao.Ordered(filter), pageSize, count);
  }

  /** With identity descending as the default order, a search without an order lists the newest save first. */
  lemma NewestSaveFirst(dao: UserDao)
    requires dao.Valid() && dao.defaultOrder == [OrderItem(Id, Descending)]
    ensures dao.Ordered(SearchFilter([])) == Reversed(dao.users)
  {
    SortByIdDescending(dao.users);
  }
}
