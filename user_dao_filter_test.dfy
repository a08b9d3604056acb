/**
 * The cases of tests/Dao/UserDaoFilterTest.php, replayed against the DAO model: each method
 * saves the test's users into a new DAO, runs the test's query on that same DAO (the model's DAO
 * holds the storage the test's DAOs share) and states what the test asserts.
 */
module UserDaoFilterTests {
  import opened Results
  import opened UserOrdering
  import opened Paging
  import opened Daos

  /** `getTestUser` gives every user the same placeholder registration time. */
  const Whatever: int := 0

  function TestUser(name: string): User
  {
    User(0, name, Whatever)
  }

  /** Seconds after midnight of `mktime(hour, minute, second)` on the test's day. */
  function ClockTime(hour: int, minute: int, second: int): int
  {
    hour * 3600 + minute * 60 + second
  }

  /** A single user is already in order. */
  lemma SortOne(order: seq<OrderItem>, a: User)
    ensures Sort(order, [a]) == [a]
  {
    assert [a][..0] == [];
    assert Sort(order, []) == [];
  }

  /** Sorting two users puts the second first exactly when it comes strictly before the first. */
  lemma SortTwo(order: seq<OrderItem>, a: User, b: User)
    ensures Sort(order, [a, b]) == if Compare(order, b, a) < 0 then [b, a] else [a, b]
  {
    assert [a, b][..1] == [a];
    SortOne(order, a);
    assert Sort(order, [a, b]) == Insert(order, b, [a]);
    assert Insert(order, b, []) == [b];
  }

  lemma NameDescendingPutsXenaFirst(xena: User, gabrielle: User)
    requires xena.name == "xena" && gabrielle.name == "gabrielle"
    ensures Sort([OrderItem(Name, Descending)], [xena, gabrielle]) == [xena, gabrielle]
  {
    SortTwo([OrderItem(Name, Descending)], xena, gabrielle);
    assert CompareStrings("gabrielle", "xena") == -1;
  }

  /** The four pages of sizes 1 and 2 over two users. */
  lemma TwoUserPages(dao: UserDao, filter: SearchFilter, pageNumber: int, pageSize: int)
    requires 1 <= pageNumber <= 2 && 1 <= pageSize <= 2 && |dao.users| == 2
    ensures var ordered := dao.Ordered(filter);
            dao.FindFilteredAndPaged(filter, pageNumber, pageSize).value.entities ==
              if pageNumber == 1 && pageSize == 1 then [ordered[0]]
              else if pageNumber == 1 then ordered
              else if pageSize == 1 then [ordered[1]]
              else []
  {
    var ordered := dao.Ordered(filter);
    var r := dao.FindFilteredAndPaged(filter, pageNumber, pageSize);
    if pageNumber == 1 && pageSize == 1 {
      assert (pageNumber - 1) * pageSize == 0;
      assert r.value.entities[0] == ordered[0];
    } else if pageNumber == 1 {
      assert (pageNumber - 1) * pageSize == 0;
      assert r.value.entities[0] == ordered[0] && r.value.entities[1] == ordered[1];
    } else if pageSize == 1 {
      assert (pageNumber - 1) * pageSize == 1;
      assert r.value.entities[0] == ordered[1];
    } else {
      assert (pageNumber - 1) * pageSize == 2;
    }
  }

  /** testNothing: an empty DAO yields no users, a total of 0, and page 1 of size 2 as asked. */
  method Nothing(defaultOrder: seq<OrderItem>) returns (r: Result<PagedSearchResult, DaoError>)
    ensures r == Ok(PagedSearchResult([], 0, 1, 2, SearchFilter([])))
  {
    var dao := new UserDao(defaultOrder);
    r := dao.FindFilteredAndPaged(SearchFilter([]), 1, 2);
  }

  /** The users testPaging saves, in its order. */
  method SaveXenaAndGabrielle() returns (dao: UserDao)
    ensures fresh(dao) && dao.Valid()
    ensures dao.users == [User(0, "xena", Whatever), User(1, "gabrielle", Whatever)]
  {
    dao := new UserDao([]);
    var xena := dao.Save(TestUser("xena"));
    var gabrielle := dao.Save(TestUser("gabrielle"));
  }

  /**
   * testPaging: with xena and gabrielle saved and the order name descending, pages (1,1), (1,2),
   * (2,1), (2,2) hold [xena], [xena, gabrielle], [gabrielle] and [], and always report a total
   * of 2 and the requested page number and size.
   */
  method PagingCase(pageNumber: int, pageSize: int) returns (r: Result<PagedSearchResult, DaoError>)
    requires 1 <= pageNumber <= 2 && 1 <= pageSize <= 2
    ensures r.Ok? && r.value.totalRecords == 2
    ensures r.value.pageNumber == pageNumber && r.value.pageSize == pageSize
    ensures var xena, gabrielle := User(0, "xena", Whatever), User(1, "gabrielle", Whatever);
            r.value.entities ==
              if pageNumber == 1 && pageSize == 1 then [xena]
              else if pageNumber == 1 then [xena, gabrielle]
              else if pageSize == 1 then [gabrielle]
              else []
  {
    var dao := SaveXenaAndGabrielle();
    var xena, gabrielle := dao.users[0], dao.users[1];
    var filter := SearchFilter([OrderItem(Name, Descending)]);
    NameDescendingPutsXenaFirst(xena, gabrielle);
    TwoUserPages(dao, filter, pageNumber, pageSize);
    r := dao.FindFilteredAndPaged(filter, pageNumber, pageSize);
  }

  /** Comparing by a one-item order is comparing by that item. */
  lemma CompareSingle(item: OrderItem, a: User, b: User)
    ensures Compare([item], a, b) == CompareItem(item, a, b)
  {
    assert [item][1..] == [];
  }

  /**
   * How the orders of doTestSorting and testDefaultOrder arrange beartato (saved first, registered
   * at 03:02:01) and reginald (saved second, registered at 01:02:03).
   */
  lemma PreparedUsersOrder(order: seq<OrderItem>, beartato: User, reginald: User)
    requires beartato == User(0, "beartato", ClockTime(3, 2, 1))
    requires reginald == User(1, "reginald", ClockTime(1, 2, 3))
    ensures order == [OrderItem(Name, Ascending)] ==> Sort(order, [beartato, reginald]) == [beartato, reginald]
    ensures order == [OrderItem(Name, Descending)] ==> Sort(order, [beartato, reginald]) == [reginald, beartato]
    ensures order == [OrderItem(RegistrationTime, Ascending)] ==> Sort(order, [beartato, reginald]) == [reginald, beartato]
    ensures order == [OrderItem(RegistrationTime, Descending)] ==> Sort(order, [beartato, reginald]) == [beartato, reginald]
    ensures order == [OrderItem(Id, Descending)] ==> Sort(order, [beartato, reginald]) == [reginald, beartato]
  {
    SortTwo(order, beartato, reginald);
    if |order| == 1 {
      CompareSingle(order[0], reginald, beartato);
      assert order == [order[0]];
      if order[0].key == Name {
        assert CompareStrings("reginald", "beartato") == 1;
      }
    }
  }

  /** A first page of size 10 over at most ten users holds all of them, in search order. */
  lemma FirstPageOfTen(dao: UserDao, filter: SearchFilter)
    requires |dao.users| <= 10
    ensures dao.FindFilteredAndPaged(filter, 1, 10).value.entities == dao.Ordered(filter)
  {
    var r := dao.FindFilteredAndPaged(filter, 1, 10);
    assert (1 - 1) * 10 == 0;
    assert |r.value.entities| == |dao.Ordered(filter)|;
  }

  /** The doTestSorting query over a DAO holding beartato and reginald, in save order. */
  lemma PreparedUsersQuery(dao: UserDao, order: seq<OrderItem>)
    requires dao.users == [User(0, "beartato", ClockTime(3, 2, 1)), User(1, "reginald", ClockTime(1, 2, 3))]
    ensures var r := dao.FindFilteredAndPaged(SearchFilter(order), 1, 10);
            var beartato, reginald := dao.users[0], dao.users[1];
            && r.Ok? && r.value.searchFilter == SearchFilter(order)
            && r.value.totalRecords == 2 && r.value.pageNumber == 1 && r.value.pageSize == 10
            && (order == [OrderItem(Name, Ascending)] ==> r.value.entities == [beartato, reginald])
            && (order == [OrderItem(Name, Descending)] ==> r.value.entities == [reginald, beartato])
            && (order == [OrderItem(RegistrationTime, Ascending)] ==> r.value.entities == [reginald, beartato])
            && (order == [OrderItem(RegistrationTime, Descending)] ==> r.value.entities == [beartato, reginald])
            && ((order == [] && dao.defaultOrder in {[OrderItem(Id, Descending)], [OrderItem(Name, Descending)],
                                                 [OrderItem(RegistrationTime, Ascending)]})
                  ==> r.value.entities == [reginald, beartato])
  {
    var filter := SearchFilter(order);
    PreparedUsersOrder(dao.OrderFor(filter), dao.users[0], dao.users[1]);
    assert dao.users == [dao.users[0], dao.users[1]];
    FirstPageOfTen(dao, filter);
  }

  /**
   * doTestSorting after prepareUsers: beartato registered at 03:02:01 and reginald at 01:02:03 are
   * saved in that order; a query for page 1 of size 10 returns both, in the order the filter asks,
   * and the filter itself. With no order, each default that testDefaultOrder admits among the
   * one-key orders (newest save first, name descending, registration time ascending) yields
   * [reginald, beartato].
   */
  method SortingCase(order: seq<OrderItem>, defaultOrder: seq<OrderItem>)
    returns (r: Result<PagedSearchResult, DaoError>)
    ensures r.Ok? && r.value.searchFilter == SearchFilter(order)
    ensures r.value.totalRecords == 2 && r.value.pageNumber == 1 && r.value.pageSize == 10
    ensures var beartato, reginald := User(0, "beartato", ClockTime(3, 2, 1)), User(1, "reginald", ClockTime(1, 2, 3));
            && (order == [OrderItem(Name, Ascending)] ==> r.value.entities == [beartato, reginald])
            && (order == [OrderItem(Name, Descending)] ==> r.value.entities == [reginald, beartato])
            && (order == [OrderItem(RegistrationTime, Ascending)] ==> r.value.entities == [reginald, beartato])
            && (order == [OrderItem(RegistrationTime, Descending)] ==> r.value.entities == [beartato, reginald])
            && ((order == [] && defaultOrder in {[OrderItem(Id, Descending)], [OrderItem(Name, Descending)],
                                                 [OrderItem(RegistrationTime, Ascending)]})
                  ==> r.value.entities == [reginald, beartato])
  {
    var dao := new UserDao(defaultOrder);
    var beartato := dao.Save(User(0, "beartato", ClockTime(3, 2, 1)));
    var reginald := dao.Save(User(0, "reginald", ClockTime(1, 2, 3)));
    PreparedUsersQuery(dao, order);
    r := dao.FindFilteredAndPaged(SearchFilter(order), 1, 10);
  }
}
