# Search value layer and user search paging of szurubooru, in Dafny

This project models two parts of szurubooru, an image board.

1. **The query-token value layer** of the search engine
   (`server/szurubooru/search/configs/util.py`).
   - `unescape` scans a search token and resolves the escapes `\*`, `\\`, `\:`, `\-`, `\.` and `\,`. It rejects dangling and unknown escapes with `SearchError`. In wildcard mode it turns a bare `*` into the `WILDCARD` sentinel.
   - `wildcard_transformer`, `enum_transformer` and `integer_transformer` turn a token into a LIKE pattern, an enum value and an integer.
   - `apply_num_criterion_to_column`, `apply_str_criterion_to_column`, `create_num_filter` and `create_str_filter` turn a plain, array or ranged criterion into a column predicate. The predicate may be negated and is added to a query.
2. **The user DAO's paged, ordered search**, as `tests/Dao/UserDaoFilterTest.php` pins it down.
   - `save` stores a user.
   - `findFilteredAndPaged(filter, pageNumber, pageSize)` orders every saved user by the filter's order. It returns the window `[(pageNumber-1)*pageSize, pageNumber*pageSize)` of that order, the total number of users, the requested page number and size unchanged, and the filter.

Modules:

- `Results` (results.dfy): `Option`, `Result` and the failures. `SearchError` carries a reason; `ValueError` models Python's `int()` rejecting a string.
- `Unescaping` (unescape.dfy):
  - `UnescapeUnits` is a recursive reference definition over output units: a character, or the wildcard.
  - `Unescape` is the scanning loop, proved equal to it.
- `Transformers` (transformers.dfy):
  - `ReplaceAll` models Python's `str.replace`: left to right, non-overlapping.
  - The three transformers, with lemmas about their meaning.
- `CriteriaFilters` (criteria_filters.dfy):
  - Column expressions become small predicate trees with an `Eval`.
  - SQL `ilike` is a matching relation supplied by the caller.
- `UserOrdering` (ordering.dfy): the multi-key order on users, a total preorder, and a stable insertion sort.
- `Paging` (paging.dfy): the paging window.
- `Daos` (user_dao.dfy): the `UserDao` class. Its `users` field is a sequence that `Save` extends.
- `UserDaoFilterTests` (user_dao_filter_test.dfy): each case of the PHP test, stated as a contract over the model.

## Model

| member | source | states |
|---|---|---|
| Unescaping.UnescapeUnits | server/szurubooru/search/configs/util.py:14-36 | Each loop step emits one unit from one or two input characters. So the output has between half the input length and the input length in units. Without wildcard mode every unit is a character. Every emitted character occurs in the input. A failure is a `SearchError`, and only text with a backslash fails. |
| Unescaping.Unescape | server/szurubooru/search/configs/util.py:14-36 | The scanning loop returns the reference unescaping of the text, error included. |
| Unescaping.UnescapeConcat | server/szurubooru/search/configs/util.py:17-35 | Unescaping is left to right. If a prefix unescapes, the whole text unescapes to that prefix's units followed by the unescaping of the rest. |
| Unescaping.UnescapePlainText | server/szurubooru/search/configs/util.py:17-35 | Text with no backslash comes back unchanged. In wildcard mode the text must also have no `*`. |
| Unescaping.TrailingBackslash | server/szurubooru/search/configs/util.py:18-25 | A lone backslash at the end raises `SearchError`. |
| Unescaping.EscapeSequence | server/szurubooru/search/configs/util.py:19-29 | A backslash before one of `*\:-.,` yields exactly that character, in either mode. Before any other character it raises `SearchError`. |
| Unescaping.BareStar | server/szurubooru/search/configs/util.py:30-33 | In wildcard mode a bare `*` yields the wildcard unit, which is rendered as the sentinel text `(--wildcard--)`. Otherwise it yields a literal `*`. |
| Transformers.ReplaceAbsent | server/szurubooru/search/configs/util.py:42-45 | `str.replace` leaves text without the pattern unchanged. |
| Transformers.ReplaceHit | server/szurubooru/search/configs/util.py:45 | An occurrence of the pattern at the front is replaced, and replacing continues after it. |
| Transformers.ReplaceCharConcat | server/szurubooru/search/configs/util.py:42-44 | Replacing a single character distributes over concatenation. |
| Transformers.EscapeLikeCharsOfChar | server/szurubooru/search/configs/util.py:42-44 | The three replacements escape `\`, `%` and `_` with a backslash and keep every other character. |
| Transformers.SentinelToPercent | server/szurubooru/search/configs/util.py:45 | When the token's literal characters never spell the sentinel text, the final replace turns exactly the wildcards into `%` and leaves every escaped character alone. |
| Transformers.SentinelAtParenthesisIsSpelled | server/szurubooru/search/configs/util.py:45 | If the escaped text matches the sentinel at a typed `(`, the units from there are literal characters spelling the whole sentinel. |
| Transformers.OpeningParenthesisIsLiteral | server/szurubooru/search/configs/util.py:45 | A typed `(` is copied through by the final replace unless the characters after it spell the rest of the sentinel. |
| Transformers.PlainPrefixUnits | server/szurubooru/search/configs/util.py:42-45 | Escaped text that begins with characters other than `(` and `\` comes from that many literal characters. Neither a wildcard nor a LIKE escape can produce them. |
| Transformers.WildcardTransformerMeaning | server/szurubooru/search/configs/util.py:39-45 | An unescaping error passes through. Otherwise, unless the token's literal characters spell out the sentinel text, the result is the LIKE pattern of the unescaped units. A bare `*` becomes `%`. A literal `\`, `%` or `_` is escaped with a backslash. Any other character, `(` included, is kept. |
| Transformers.WildcardTransformerWithoutParenthesis | server/szurubooru/search/configs/util.py:39-45 | A token without `(` always gets the LIKE pattern of its unescaped units. |
| Transformers.WildcardTransformerPlainText | server/szurubooru/search/configs/util.py:39-45 | A token free of `\ * % _` and of the sentinel text is its own pattern. |
| Transformers.WildcardTransformerSentinelCollision | server/szurubooru/search/configs/util.py:11 | A token spelling the sentinel text literally becomes `%`, the match-anything pattern. |
| Transformers.EnumTransformerIgnoresCase | server/szurubooru/search/configs/util.py:48-50 | The enum lookup depends only on the lower-cased token. |
| Transformers.EnumTransformerLookup | server/szurubooru/search/configs/util.py:48-54 | For a token without escapes, the lookup succeeds exactly when the lower-cased token is a key, and returns that key's value. An unknown key raises `SearchError`. |
| Transformers.NatDigits | server/szurubooru/search/configs/util.py:57-58 | Decimal rendering yields a non-empty string of digits. |
| Transformers.NatDigitsValue | server/szurubooru/search/configs/util.py:57-58 | Reading back the digits of `n` gives `n`. |
| Transformers.ParseIntOfDecimalText | server/szurubooru/search/configs/util.py:58 | Python `int()` reads the decimal text of any integer, negative ones included, back as that integer. This holds for an interpreter without the integer-string conversion limit (see "## Left out"). |
| Transformers.IntegerTransformerRoundTrip | server/szurubooru/search/configs/util.py:57-58 | The decimal text of any integer, negative ones included, parses back to that integer. This holds for an interpreter without the integer-string conversion limit (see "## Left out"). |
| Transformers.IntegerTransformerOfPlainText | server/szurubooru/search/configs/util.py:57-58 | For text without escapes, the result is Python `int()`'s parse. The surrounding whitespace stripped is what `int()` strips: tab to carriage return, space, and the non-ASCII characters `str.isspace` accepts, but not U+001C to U+001F. Text that is not a number gives `ValueError`. |
| Transformers.ParseIntRejectsDoubleUnderscore | server/szurubooru/search/configs/util.py:58 | Python `int()` refuses two underscores in a row. |
| Transformers.IntegerTransformerRejectsDoubleUnderscore | server/szurubooru/search/configs/util.py:57-58 | `int()` refuses `1__0`, so the transformer raises `ValueError`. |
| Transformers.ParseIntRejectsInformationSeparator | server/szurubooru/search/configs/util.py:58 | Python `int()` does not strip the information separators U+001C to U+001F, although `str.isspace` accepts them. Text that starts with one is not a number. |
| Transformers.IntegerTransformerRejectsInformationSeparator | server/szurubooru/search/configs/util.py:57-58 | A token without escapes that starts with U+001C to U+001F raises `ValueError`. |
| CriteriaFilters.TransformAll | server/szurubooru/search/configs/util.py:77 | Transforming an array succeeds exactly when every value transforms. The results come in order. A failure is that of the first value that fails. |
| CriteriaFilters.ApplyNumCriterion | server/szurubooru/search/configs/util.py:69-93 | The predicate admits exactly the values the criterion means. A plain value means equality and an array means membership. A range with both ends is an inclusive between. A range with only a truthy minimum is `>=` and one with only a truthy maximum is `<=`. It succeeds exactly when every value used transforms. Every failure, `ValueError` included, is a `SearchError`. |
| CriteriaFilters.NumFilter | server/szurubooru/search/configs/util.py:96-108 | One predicate is appended and the existing query is kept. A value passes the new query exactly when it passed the old one and the criterion's meaning is not equal to `negated`. |
| CriteriaFilters.RangeWithEmptyMaximumIsAtLeast | server/szurubooru/search/configs/util.py:80-85 | An empty maximum is falsy, so `5..` with an empty end becomes `>= 5`. |
| CriteriaFilters.OrOfLikesMatches | server/szurubooru/search/configs/util.py:118-120 | The OR built on `false` matches exactly the values that match one of the patterns. For no patterns it matches nothing. |
| CriteriaFilters.ApplyStrCriterion | server/szurubooru/search/configs/util.py:111-127 | A ranged criterion raises `SearchError`. A plain value gives one `ilike`. The loop ORs one `ilike` per array value onto `false`, in order. It succeeds exactly when every value transforms, and otherwise reports the first failure. |
| CriteriaFilters.StrFilter | server/szurubooru/search/configs/util.py:130-142 | One predicate is appended and the existing query is kept. For every matching relation, a value passes exactly when it passed before and its match against the criterion is not equal to `negated`. A range is refused. |
| UserOrdering.CompareStringsFlip | tests/Dao/UserDaoFilterTest.php:72-88 | Name comparison is antisymmetric. It reports a tie only for equal names. |
| UserOrdering.CompareFlip | tests/Dao/UserDaoFilterTest.php:121-131 | Swapping two users negates their comparison under any order. |
| UserOrdering.CompareTransitive | tests/Dao/UserDaoFilterTest.php:121-131 | The comparison under any order is transitive, so it is a total preorder. |
| UserOrdering.InsertSorted | tests/Dao/UserDaoFilterTest.php:121-131 | Inserting a user into a sorted list keeps it sorted. |
| UserOrdering.Sort | tests/Dao/UserDaoFilterTest.php:121-131 | The search order is a permutation of the saved users and is sorted under the order. |
| UserOrdering.SortByIdDescending | tests/Dao/UserDaoFilterTest.php:66-70 | When identities grow with save order, ordering by identity descending lists the users newest save first, which is the reverse of save order. |
| Paging.Page | tests/Dao/UserDaoFilterTest.php:16-25 | Page `p` of size `s` is the entries from position `(p-1)*s` onward, at most `s` of them, and empty past the end. |
| Paging.PagesAreAPrefix | tests/Dao/UserDaoFilterTest.php:16-25 | Reading pages 1 to `n` in turn gives the first `n*s` entries, with no gap and no repeat. |
| Paging.PagesCoverAll | tests/Dao/UserDaoFilterTest.php:16-25 | Once the pages reach the end, together they are the whole list. |
| Daos.UserDao.constructor | tests/Dao/UserDaoFilterTest.php:136-142 | A new DAO holds no users and keeps the given default order. |
| Daos.UserDao.Save | tests/Dao/UserDaoFilterTest.php:49 | The user is stored at the end under the next identity. Identities stay equal to positions. |
| Daos.UserDao.Ordered | tests/Dao/UserDaoFilterTest.php:59 | The search order holds as many users as were saved. |
| Daos.UserDao.FindFilteredAndPaged | tests/Dao/UserDaoFilterTest.php:59-63 | It succeeds for a page number and size of at least 1. The total is the number of saved users. The page number, page size and filter come back as given. The entities are the requested window of the search order, sorted, and drawn from the saved users. |
| Daos.NewestSaveFirst | tests/Dao/UserDaoFilterTest.php:66-70 | With identity descending as the default, a search without an order lists the saved users in reverse save order. |
| Daos.PageOfSorted | tests/Dao/UserDaoFilterTest.php:128-131 | A page of a sorted list is sorted and is a sub-multiset of it. |
| Daos.PagesListEveryUserOnce | tests/Dao/UserDaoFilterTest.php:16-25 | Paging through a search lists every saved user exactly once. |
| UserDaoFilterTests.SortTwo | tests/Dao/UserDaoFilterTest.php:121-131 | Two users are swapped exactly when the second comes strictly before the first. |
| UserDaoFilterTests.NameDescendingPutsXenaFirst | tests/Dao/UserDaoFilterTest.php:55-57 | Ordered by name descending, xena comes before gabrielle. |
| UserDaoFilterTests.TwoUserPages | tests/Dao/UserDaoFilterTest.php:16-25 | Over two users, pages (1,1), (1,2), (2,1) and (2,2) hold the first, both, the second and none. |
| UserDaoFilterTests.Nothing | tests/Dao/UserDaoFilterTest.php:28-37 | On an empty DAO, page 1 of size 2 has no users and a total of 0, and reports page 1, size 2 and the filter. |
| UserDaoFilterTests.SaveXenaAndGabrielle | tests/Dao/UserDaoFilterTest.php:44-52 | Saving xena, then gabrielle, stores them in that order with identities 0 and 1. |
| UserDaoFilterTests.PagingCase | tests/Dao/UserDaoFilterTest.php:42-64 | Ordered by name descending: (1,1) gives [xena], (1,2) gives [xena, gabrielle], (2,1) gives [gabrielle] and (2,2) gives []. Each reports a total of 2 and the requested page number and size. |
| UserDaoFilterTests.CompareSingle | tests/Dao/UserDaoFilterTest.php:126 | A one-key order compares by that key alone. |
| UserDaoFilterTests.PreparedUsersOrder | tests/Dao/UserDaoFilterTest.php:72-117 | Name ascending and registration time descending give [beartato, reginald]. Name descending and registration time ascending give [reginald, beartato]. So does identity descending. |
| UserDaoFilterTests.FirstPageOfTen | tests/Dao/UserDaoFilterTest.php:128 | Page 1 of size 10 over at most ten users is the whole search order. |
| UserDaoFilterTests.PreparedUsersQuery | tests/Dao/UserDaoFilterTest.php:121-134 | The doTestSorting query over beartato and reginald gives the expected order for each order. It reports a total of 2, page 1, size 10 and the filter it was given. |
| UserDaoFilterTests.SortingCase | tests/Dao/UserDaoFilterTest.php:66-134 | The same, replayed on one DAO that holds both saved users. With no order, each one-key default the test admits gives [reginald, beartato], as testDefaultOrder expects: identity descending (newest save first), name descending, and registration time ascending. |

## Left out

- `float_transformer` (util.py:61-66) is not modelled: it is floating-point parsing and division.
- Date criteria (util.py:145-182) are not modelled. They rely on `util.parse_time_range`, which is not part of this model.
- `create_subquery_filter` (util.py:185-209) is not modelled. It builds ORM subqueries through the database session.
- Real SQL is not modelled:
  - `ilike` is a relation the caller supplies.
  - `between` is inclusive.
  - SQL NULL and three-valued logic are not modelled.
  - A filter's query is the list of predicates it added.
- The DAO's database connection and the file and thumbnail service mocks of the test are not modelled. The model's DAO holds the stored users itself. So where the test saves through one `UserDao` and queries through a second one over the same connection (prepareUsers, then doTestSorting), the case is replayed on a single DAO.
- Error message texts are not modelled. A failure carries a reason code instead.
- Transformers.Lower: lower-casing covers ASCII letters only, not Python's full Unicode `str.lower`.
- Transformers.IntegerTransformer: Python's `int()` is modelled for ASCII digits, an optional sign, and `_` between digits. Surrounding whitespace is every character Python's `str.isspace` accepts except U+001C to U+001F, which `int()` does not strip. Non-ASCII decimal digits, which Python's `int()` also accepts, are not accepted. There is no digit limit. Interpreters with the integer-string conversion limit (Python 3.11 and later, and the 3.7 to 3.10 security releases that added it) reject more than 4300 digits, not counting sign and underscores, with `ValueError`. `integer_transformer` then raises, and `apply_num_criterion_to_column` reports a `SearchError`. `ParseIntOfDecimalText` and `IntegerTransformerRoundTrip` hold only without that limit.
- Transformers.WildcardTransformerMeaning: the LIKE pattern is not promised when the token's literal characters spell out `(--wildcard--)`. Those characters are indistinguishable from the sentinel, so the final replace turns them into `%`. `WildcardTransformerSentinelCollision` states that case; the source comment shows the collision is an accepted risk.
- UserOrdering.CompareStrings: names compare case-sensitively, character code by character code, so `Zed` sorts before `abe` and `Xena` differs from `xena`. The tested names are all lower-case ASCII, so the test does not determine the DAO's collation. A case-insensitive collation would order those pairs differently. `CompareStringsFlip`'s "tie only for equal names" rests on this choice.
- UserOrdering.CompareOn: registration time is an integer count of seconds. The source stores `date('c', …)` text. The two agree on order for timestamps with the same UTC offset, as in the test.
- Users carry only an identity, a name and a registration time. Password hash, last-login time and access rank play no part in the search.
- UserDaoFilterTests.SortingCase: the DAO's default order is a constructor parameter, because the test does not determine the default order's key.
  - testDefaultOrder expects [reginald, beartato], the user saved second first.
  - That rules out "registration time descending" as the default: `PreparedUsersOrder` shows that order gives [beartato, reginald].
  - The contract shows that "identity descending", "name descending" and "registration time ascending" all agree with the test. `NewestSaveFirst` shows that identity descending always means newest save first.
- Users that tie on every key of the order keep their save order, because the model sorts stably. The tested code does not determine this order, so no test scenario relies on it.
- Daos.UserDao.FindFilteredAndPaged: a page number or size below 1 is modelled as an error. The test never passes such arguments, and the `UserDao` implementation is not part of this model.
- Saving an already-stored user (an update) is not modelled. `Save` always adds a new user.
- Search criteria in a user search filter (beyond the order) are not modelled. The test uses none.
