/**
 * Ordering users for a search: an order is a list of (key, direction) pairs, applied in list
 * order, the first pair that does not tie deciding. Sorting is stable, so users that tie on every
 * pair keep the order in which they were saved.
 */
module UserOrdering {

  /** A saved user: the identity the DAO assigns on save, the name and the registration time. */
  datatype User = User(id: nat, name: string, registrationTime: int)

  datatype OrderKey = Name | RegistrationTime | Id

  datatype Direction = Ascending | Descending

  datatype OrderItem = OrderItem(key: OrderKey, direction: Direction)

  /** Character-by-character comparison of two names: -1, 0 or 1. */
  function CompareStrings(a: string, b: string): int
  {
    if a == [] && b == [] then 0
    else if a == [] then -1
    else if b == [] then 1
    else if a[0] < b[0] then -1
    else if a[0] > b[0] then 1
    else CompareStrings(a[1..], b[1..])
  }

  function CompareInts(a: int, b: int): int
  {
    if a < b then -1 else if a > b then 1 else 0
  }

  function CompareOn(key: OrderKey, a: User, b: User): int
  {
    match key
    case Name => CompareStrings(a.name, b.name)
    case RegistrationTime => CompareInts(a.registrationTime, b.registrationTime)
    case Id => CompareInts(a.id, b.id)
  }

  function CompareItem(item: OrderItem, a: User, b: User): int
  {
    if item.direction == Ascending then CompareOn(item.key, a, b) else -CompareOn(item.key, a, b)
  }

  /** The first pair of the order that tells `a` and `b` apart decides; 0 when all tie. */
  function Compare(order: seq<OrderItem>, a: User, b: User): int
  {
    if order == [] then 0
    else if CompareItem(order[0], a, b) != 0 then CompareItem(order[0], a, b)
    else Compare(order[1..], a, b)
  }

  /** Every adjacent-or-not pair is in order. */
  ghost predicate Sorted(order: seq<OrderItem>, s: seq<User>)
  {
    forall i, j :: 0 <= i < j < |s| ==> Compare(order, s[i], s[j]) <= 0
  }

  // ---------------------------------------------------------------------------------------------
  // The comparison is a total preorder

  lemma {:induction false} CompareStringsFlip(a: string, b: string)
    ensures CompareStrings(a, b) == -CompareStrings(b, a)
    ensures CompareStrings(a, b) == 0 <==> a == b
    decreases |a|
  {
    if a != [] && b != [] && a[0] == b[0] {
      CompareStringsFlip(a[1..], b[1..]);
      if a[1..] == b[1..] {
        assert a == [a[0]] + a[1..] && b == [b[0]] + b[1..];
      }
    }
  }

  lemma {:induction false} CompareStringsTransitive(a: string, b: string, c: string)
    requires CompareStrings(a, b) < 0 && CompareStrings(b, c) < 0
    ensures CompareStrings(a, c) < 0
    decreases |a|
  {
    if a != [] && b != [] && c != [] && a[0] == b[0] && b[0] == c[0] {
      CompareStringsTransitive(a[1..], b[1..], c[1..]);
    }
  }

  lemma CompareOnFlip(key: OrderKey, a: User, b: User)
    ensures CompareOn(key, a, b) == -CompareOn(key, b, a)
  {
    if key == Name {
      CompareStringsFlip(a.name, b.name);
    }
  }

  /** Two users that tie on a key compare alike with every third user on that key. */
  lemma CompareOnTie(key: OrderKey, a: User, b: User, c: User)
    requires CompareOn(key, a, b) == 0
    ensures CompareOn(key, a, c) == CompareOn(key, b, c)
  {
    if key == Name {
      CompareStringsFlip(a.name, b.name);
    }
  }

  lemma CompareOnTransitive(key: OrderKey, a: User, b: User, c: User)
    requires CompareOn(key, a, b) < 0 && CompareOn(key, b, c) < 0
    ensures CompareOn(key, a, c) < 0
  {
    if key == Name {
      CompareStringsTransitive(a.name, b.name, c.name);
    }
  }

  /** Swapping the two users negates the comparison. */
  lemma {:induction false} CompareFlip(order: seq<OrderItem>, a: User, b: User)
    ensures Compare(order, a, b) == -Compare(order, b, a)
    decreases |order|
  {
    if order != [] {
      CompareOnFlip(order[0].key, a, b);
      CompareFlip(order[1..], a, b);
    }
  }

  /** The comparison's "not after" relation is transitive. */
  lemma {:induction false} CompareTransitive(order: seq<OrderItem>, a: User, b: User, c: User)
    requires Compare(order, a, b) <= 0 && Compare(order, b, c) <= 0
    ensures Compare(order, a, c) <= 0
    decreases |order|
  {
    if order != [] {
      var key := order[0].key;
      var ab, bc := CompareOn(key, a, b), CompareOn(key, b, c);
      CompareOnFlip(key, a, b);
      CompareOnFlip(key, b, c);
      CompareOnFlip(key, a, c);
      if ab == 0 && bc == 0 {
        CompareOnTie(key, a, b, c);
        CompareTransitive(order[1..], a, b, c);
      } else if ab == 0 {
        CompareOnTie(key, a, b, c);
      } else if bc == 0 {
        CompareOnTie(key, c, b, a);
      } else if ab < 0 && bc < 0 {
        CompareOnTransitive(key, a, b, c);
      } else {
        assert ab > 0 && bc > 0;
        CompareOnTransitive(key, c, b, a);
      }
    }
  }

  // ---------------------------------------------------------------------------------------------
  // Stable insertion sort

  /** Inserting after every user that does not come after `u`. */
  function Insert(order: seq<OrderItem>, u: User, s: seq<User>): (r: seq<User>)
    ensures multiset(r) == multiset(s) + multiset{u} && |r| == |s| + 1
  {
    if s == [] then [u]
    else if Compare(order, u, s[0]) < 0 then [u] + s
    else
      assert s == [s[0]] + s[1..];
      [s[0]] + Insert(order, u, s[1..])
  }

  lemma PrependSorted(order: seq<OrderItem>, x: User, s: seq<User>)
    requires Sorted(order, s)
    requires forall j :: 0 <= j < |s| ==> Compare(order, x, s[j]) <= 0
    ensures Sorted(order, [x] + s)
  {
    var r := [x] + s;
    forall i, j | 0 <= i < j < |r| ensures Compare(order, r[i], r[j]) <= 0 {
      assert r[j] == s[j - 1];
      if i > 0 {
        assert r[i] == s[i - 1];
      }
    }
  }

  lemma TailSorted(order: seq<OrderItem>, s: seq<User>)
    requires s != [] && Sorted(order, s)
    ensures Sorted(order, s[1..])
  {
    var tail := s[1..];
    forall i, j | 0 <= i < j < |tail| ensures Compare(order, tail[i], tail[j]) <= 0 {
      assert tail[i] == s[i + 1] && tail[j] == s[j + 1];
    }
  }

  lemma {:induction false} InsertSorted(order: seq<OrderItem>, u: User, s: seq<User>)
    requires Sorted(order, s)
    ensures Sorted(order, Insert(order, u, s))
  {
    if s == [] {
    } else if Compare(order, u, s[0]) < 0 {
      forall j | 0 <= j < |s| ensures Compare(order, u, s[j]) <= 0 {
        if j > 0 {
          CompareTransitive(order, u, s[0], s[j]);
        }
      }
      PrependSorted(order, u, s);
    } else {
      var tail := s[1..];
      TailSorted(order, s);
      InsertSorted(order, u, tail);
      var rest := Insert(order, u, tail);
      CompareFlip(order, u, s[0]);
      forall j | 0 <= j < |rest| ensures Compare(order, s[0], rest[j]) <= 0 {
        assert rest[j] in multiset(rest);
        if rest[j] != u {
          assert rest[j] in multiset(tail);
          var k :| 0 <= k < |tail| && tail[k] == rest[j];
          assert s[k + 1] == rest[j];
        }
      }
      PrependSorted(order, s[0], rest);
    }
  }

  /** The users in order; users that tie on the whole order keep their relative position. */
  function Sort(order: seq<OrderItem>, us: seq<User>): (r: seq<User>)
    ensures multiset(r) == multiset(us) && |r| == |us|
    ensures Sorted(order, r)
  {
    if us == [] then []
    else
      var sorted := Sort(order, us[..|us| - 1]);
      assert us == us[..|us| - 1] + [us[|us| - 1]];
      InsertSorted(order, us[|us| - 1], sorted);
      Insert(order, us[|us| - 1], sorted)
  }

  // ---------------------------------------------------------------------------------------------
  // Newest first

  function Reversed(us: seq<User>): (r: seq<User>)
    ensures |r| == |us| && forall i :: 0 <= i < |us| ==> r[i] == us[|us| - 1 - i]
  {
    if us == [] then [] else [us[|us| - 1]] + Reversed(us[..|us| - 1])
  }

  /** Identities grow along the sequence. */
  predicate IdsIncreasing(us: seq<User>)
  {
    forall i, j :: 0 <= i < j < |us| ==> us[i].id < us[j].id
  }

  /** When identities grow with save order, identity descending is newest save first. */
  lemma {:induction false} SortByIdDescending(us: seq<User>)
    requires IdsIncreasing(us)
    ensures Sort([OrderItem(Id, Descending)], us) == Reversed(us)
    decreases |us|
  {
    if us != [] {
      var order := [OrderItem(Id, Descending)];
      var init, last := us[..|us| - 1], us[|us| - 1];
      assert us == init + [last];
      SortByIdDescending(init);
      var sorted := Sort(order, init);
      assert sorted == Reversed(init);
      if sorted != [] {
        assert sorted[0] == init[|init| - 1];
        assert order[1..] == [];
        assert Compare(order, last, sorted[0]) < 0;
      }
    }
  }
}
