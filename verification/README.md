# Expense tracker backend, modelled in Dafny

`Backend.py` is a small personal-finance server. It has an `expenses` table
(id, date, category, description, amount) and a `settings` table that holds
the monthly salary in its row with id 1, both in SQLite. `ExpenseHandler`
answers the HTTP verbs:

- GET serves a landing page, the expense list, a salary report with
  remaining money and per-month savings, category and monthly summaries
  (each in a plain and an "animated" variant) and a CSV export.
- POST creates an expense or sets the salary.
- PUT overwrites one expense by id.
- DELETE removes one expense by id.
- OPTIONS answers the CORS preflight.

The model treats the database as a value and every request as a pure
function from (request, database) to (response, database).

- `Base`: `Option` and `Result`.
- `Text`: code-point string order (SQLite's BINARY collation), prefixes,
  the `urlparse` path of a request target, the last `/` segment, and Python
  `int()` on that segment, with its inverse `DecimalString`.
- `Sorting`: a generic insertion sort under a total preorder. It yields a
  sorted permutation of its input, which stands for `ORDER BY`.
- `Store`: the two tables, their AUTOINCREMENT counters
  (`sqlite_sequence`), the invariant `Valid` and the five write operations
  (`init_db` seeding, insert, update by id, delete by id, set salary).
- `Views`: the SELECT queries. These are the sum, the `GROUP BY`
  summaries, `LIMIT 5`, the month key `substr(date, 1, 7)`, the salary
  report, the listing ordered by date and the CSV rows.
- `Router`: `_get_body`, the key lookups, the id parsing, the route
  matching of each `do_` method, and `Dispatch` over all verbs.

Amounts are exact `real`s. Stored ids are bounded by SQLite's maximum rowid
2^63-1. An id that does not fit in a 64-bit integer makes the `sqlite3`
binding raise, and the handler reports that as 400.

## Behaviour worth noting

- A verb with no `do_` method (PATCH, HEAD, ...) is answered 501 by
  `BaseHTTPRequestHandler`, so `Dispatch` answers 501 for it. Any other
  request that no branch matches is answered 404.
- Only the write handlers (`do_POST`, `do_PUT`, `do_DELETE`) catch
  exceptions and answer 400; `do_GET` has no `try`.
- Only `do_GET` cuts the query, the fragment and the last segment's
  `;params` off the target with `urlparse`. POST, PUT and DELETE compare
  the raw target, so `POST /api/expenses?x=1` is 404
  (`Router.PostWithQueryMisses`). PUT and DELETE read the id from the last
  segment of the raw target, query included.
- `init_db` inserts a settings row only when the table is empty, and that
  row takes the next AUTOINCREMENT id. The salary is read from and written
  to the row with id 1 only, so on a table without that row the salary
  reads 0 and setting it changes nothing (`Store.SalaryAfterSet`).

## Model

| member | source | states |
|---|---|---|
| Text.LeReflexive | Backend.py:81 | the BINARY collation used by `ORDER BY` relates every string to itself |
| Text.LeTotal | Backend.py:81 | any two strings are comparable under the collation |
| Text.LeTransitive | Backend.py:81 | the collation order is transitive |
| Text.LeAntisymmetric | Backend.py:81 | two strings ordered both ways are equal, so distinct month keys are strictly ordered |
| Text.Prefix | Backend.py:103 | `substr(date, 1, 7)` is a prefix of the date, of length min(7, length) |
| Text.Before | Backend.py:65 | the text up to the first stop character is a prefix with no stop character, followed by a stop character or the end |
| Text.LastSegment | Backend.py:240 | `split('/')[-1]` is a suffix without `/`, preceded by a `/` whenever it is not the whole target |
| Text.UrlPath | Backend.py:65-66 | the `urlparse` path is a prefix of the target holding no `?` or `#` |
| Text.UrlPathPlain | Backend.py:65-66 | a target without `?`, `#` or `;` is its own path |
| Text.UrlPathDropsQuery | Backend.py:65-66 | appending `?query` to a plain path leaves the GET path unchanged |
| Text.UrlPathDropsFragment | Backend.py:65-66 | appending `#fragment` to a plain path leaves the GET path unchanged |
| Text.UrlPathDropsParams | Backend.py:65-66 | `;params` after the last segment are cut from the GET path, leaving the directory and the segment |
| Text.ParseInt | Backend.py:240 | `int()` succeeds exactly on an optionally signed run of ASCII digits |
| Text.DecimalString | Backend.py:190 | the decimal form of an id is an integer literal with no `/`, `?`, `#` or `;` |
| Text.DigitsRoundTrip | Backend.py:240 | reading the digits of a natural number gives the number back |
| Text.ParseDecimalString | Backend.py:240 | `int(str(k)) == k` for every integer k |
| Text.ParseLeadingZeros | Backend.py:260 | `int()` reads `007` as 7 |
| Text.LastSegmentAfterSlash | Backend.py:240 | the last segment of `dir + "/" + t` is t when t has no `/` |
| Sorting.Insert | Backend.py:81 | inserting into a sorted list keeps it sorted and adds exactly one element (multiset) |
| Sorting.SortBy | Backend.py:81 | the result is sorted, a permutation of the input, of equal length and with the same members |
| Sorting.SortDistinctBy | Backend.py:124 | sorting keeps group keys distinct |
| Store.Lookup | Backend.py:15 | the row with a given primary key is found exactly when one exists, and it carries that id |
| Store.InitDb | Backend.py:29-31 | seeding adds one settings row with salary 0, taking the next AUTOINCREMENT id, only to an empty settings table; a non-empty table and the expenses are left alone |
| Store.InitDbIdempotent | Backend.py:29-31 | running the seeding twice equals running it once; it keeps the invariant |
| Store.InitFreshDb | Backend.py:9-33 | a new database has one settings row, id 1 with salary 0, no expenses, salary 0 and satisfies the invariant |
| Store.InsertExpense | Backend.py:210-215 | insertion fails only when the AUTOINCREMENT counter is at the maximum rowid; otherwise the new id exceeds the counter and becomes the new counter, the row is appended, and the settings and their counter are kept |
| Store.InsertFresh | Backend.py:210-215 | the new id is larger than every existing id and absent before; lookups find the new row and are unchanged for other ids; the invariant holds |
| Store.UpdateRows | Backend.py:244-248 | the row with the given id is overwritten; every other row is kept in place |
| Store.UpdateExpense | Backend.py:244-248 | an update keeps the settings, the counters and the id column |
| Store.LookupAfterUpdate | Backend.py:244-248 | after an update, id k reads the new values if it existed, and every other id reads as before |
| Store.UpdateMissingIsNoop | Backend.py:244-248 | updating an id no row has changes nothing |
| Store.UpdateValid | Backend.py:244-248 | an update keeps the invariant |
| Store.DeleteRows | Backend.py:263 | the remaining rows are exactly the old rows with another id |
| Store.DeleteExpense | Backend.py:263 | after a delete no row has id k; settings and counters are kept |
| Store.LookupAfterDelete | Backend.py:263 | after a delete, id k is absent and every other id reads as before |
| Store.DeleteMissingIsNoop | Backend.py:263 | deleting an id no row has changes nothing |
| Store.DeleteCount | Backend.py:263 | the row count drops by one exactly when the id was present |
| Store.DeleteValid | Backend.py:263 | a delete keeps the invariant and removes at most one row |
| Store.Salary | Backend.py:92-94 | the salary is that of the settings row with id 1, or 0 when no such row exists |
| Store.SetSalaryRows | Backend.py:227 | the row with id 1 gets the new salary; every other row is kept |
| Store.SetSalary | Backend.py:227 | setting the salary keeps the expenses, the counters and the settings ids |
| Store.SalaryAfterSet | Backend.py:227 | after setting, the salary reads back as the new value when row 1 exists; without row 1 nothing changes; the invariant holds |
| Views.SumAppend | Backend.py:97-99 | `SUM(amount)` grows by the amount of an added row |
| Views.SumWhereAppend | Backend.py:103-105 | a group's sum grows by a row's amount exactly when the row falls in that group |
| Views.Add | Backend.py:124 | adding an amount to a grouping adds its key, raises that key's total only and keeps keys distinct |
| Views.GroupBy | Backend.py:124 | `GROUP BY` yields distinct keys, exactly those that occur, each with the sum of its rows, and the totals add up to the overall sum |
| Views.TotalForDistinct | Backend.py:124 | in a grouping with distinct keys, a key's total is the total of its group |
| Views.ByKeyPreorders | Backend.py:139 | ascending and descending key order are total preorders |
| Views.ByDateDescPreorder | Backend.py:81 | `ORDER BY date DESC` is a total preorder |
| Views.TotalOfSort | Backend.py:124 | sorting groups keeps the sum of their totals |
| Views.Summarize | Backend.py:124 | a sorted grouping has distinct keys, exactly the occurring ones, each total equal to its rows' sum, and totals adding to the overall sum |
| Views.CategorySummary | Backend.py:121-129 | categories appear once each, with non-increasing totals; each total is the sum of that category's rows; totals add to the overall sum |
| Views.TopCategories | Backend.py:147-161 | the animated category summary is the first min(5, n) groups of the category summary, and none of them totals less than a group left out |
| Views.MonthlySummary | Backend.py:132-145 | months appear in strictly ascending order, exactly those that occur; each total is that month's sum; totals add to the overall sum |
| Views.MonthlySavings | Backend.py:102-109 | months appear in strictly descending order, exactly those that occur; each saving is the salary minus that month's sum |
| Views.SavingsMatchSummary | Backend.py:102-109 | the savings list and the monthly summary cover the same months, and each month's saving is the salary minus that month's summary total |
| Views.ListExpenses | Backend.py:78-86 | the listing is a permutation of the table with dates non-increasing |
| Views.ExportCsv | Backend.py:179-190 | the export is the header `ID,Date,Category,Description,Amount` followed by exactly the records of the table's expenses, each as many times as the expense occurs (multiset equality) |
| Views.RecordsPermutation | Backend.py:182-190 | reordering the expenses reorders their CSV records the same way: equal multisets of expenses give equal multisets of records |
| Views.CsvRowOfSomeExpense | Backend.py:189-190 | every data row of the export is the record of an expense in the table |
| Views.CsvHasEveryExpense | Backend.py:189-190 | every expense has its row in the export |
| Views.CsvNewestFirst | Backend.py:182 | export rows are ordered by date, newest first |
| Views.CsvIdsReadBack | Backend.py:190 | the id cell of each row parses back as that expense's id |
| Views.SalaryReport | Backend.py:89-117 | the report carries the stored salary, the total spent, the salary less that total, and per-month savings for exactly the months that occur, each month once, newest first |
| Views.TotalsAfterInsert | Backend.py:97-99 | a new expense raises the total, its category's sum and its month's sum, each by its amount |
| Router.ReadBody | Backend.py:54-59 | a body that is absent reads as the empty object; only undecodable JSON fails |
| Router.ReadColumns | Backend.py:213 | the columns read succeed exactly when date, category and amount are present; description defaults to the empty string; the first missing key is reported |
| Router.RouteOf | Backend.py:69-179 | a path selects a GET route exactly when it is one of the eight served paths; `/` selects the landing page |
| Router.Serve | Backend.py:69-202 | a GET route answers 200 or 404, and 404 exactly for an unserved path or for `/` without `index.html` |
| Router.HandleGet | Backend.py:64-202 | GET answers 200 or 404, and 404 exactly when the path is not served or is `/` without `index.html` |
| Router.HandlePost | Backend.py:204-235 | POST answers 201 exactly for a complete create on `/api/expenses` below the id limit, and then reports the id of the inserted row and holds exactly the insert's database; 200 exactly for a decodable body with `salary` on `/api/salary` and then stores that salary, 404 exactly off both paths; failures write nothing; the invariant holds |
| Router.HandlePut | Backend.py:237-255 | PUT answers 404 exactly off the `/api/expenses/` prefix and 200 exactly for a 64-bit integer id with a decodable body holding date, category and amount, after which the row with that id is updated; a bad id is 400 before the body is read; failures write nothing; the invariant holds |
| Router.HandleDelete | Backend.py:257-270 | DELETE answers 200 exactly under the prefix with an integer id inside 64 bits, and then deletes the row with that id and nothing else; 404 exactly off the prefix; failures write nothing; the invariant holds |
| Router.Dispatch | Backend.py:61-270 | every answer is 200, 201, 204, 400, 404 or 501; only a successful write changes the database; OPTIONS and only OPTIONS gives 204; the invariant holds |
| Router.DispatchGet | Backend.py:64 | a GET runs `do_GET` and writes nothing |
| Router.DispatchPost | Backend.py:204 | a POST runs `do_POST` |
| Router.DispatchPut | Backend.py:237 | a PUT runs `do_PUT` |
| Router.DispatchDelete | Backend.py:257 | a DELETE runs `do_DELETE` |
| Router.GetList | Backend.py:78-86 | GET `/api/expenses` answers 200 with the listing |
| Router.GetSalary | Backend.py:89-118 | GET `/api/salary` answers 200 with the salary report |
| Router.GetCategory | Backend.py:121-129 | GET `/api/summary/category` answers 200 with the category summary |
| Router.GetMonthly | Backend.py:132-145 | GET `/api/summary/monthly` answers 200 with the monthly summary |
| Router.GetTopCategories | Backend.py:147-161 | GET `/api/summary/category/animated` answers 200 with the top five categories |
| Router.GetMonthlyAnimated | Backend.py:163-176 | GET `/api/summary/monthly/animated` answers 200 with the monthly summary |
| Router.GetCsv | Backend.py:179-199 | GET `/api/export/csv` answers 200 with the CSV export |
| Router.CreateThenList | Backend.py:204-220 | a complete create answers 201 with an id above every existing id, appends exactly the new expense (description defaulted) and keeps every other record and the settings; the listing then holds it |
| Router.CreateRejected | Backend.py:218-219 | a create with an undecodable body or without date, category or amount answers 400 and writes nothing |
| Router.UpdateRejected | Backend.py:238-253 | a PUT under the prefix with an undecodable body or without date, category or amount answers 400 and writes nothing |
| Router.UpdateById | Backend.py:237-251 | PUT on `.../k` answers 200, rewrites record k if present, keeps every other record and the settings, and changes nothing when k is absent |
| Router.UpdateBadId | Backend.py:240 | PUT with a non-integer last segment answers 400 whatever the body |
| Router.IdTarget | Backend.py:240 | under the prefix, the last segment of `dir/str(k)` parses back to k, so the handlers read exactly the id that was written |
| Router.DeleteLeadingZeros | Backend.py:257-266 | DELETE on `/api/expenses/007` answers 200 and deletes record 7 |
| Router.DeleteById | Backend.py:257-266 | DELETE on `.../k` answers 200, leaves no record k, keeps every other record and the settings, and changes nothing when k is absent |
| Router.SalaryRoundTrip | Backend.py:222-233 | any body with a salary answers 200 and keeps the expenses; without row 1 nothing changes; the report then shows that salary when row 1 exists, and remaining = salary - total spent |
| Router.MonthlyAnimatedSame | Backend.py:132-176 | the animated monthly endpoint answers exactly as the monthly one |
| Router.GetIgnoresQuery | Backend.py:65-66 | GET on `/api/expenses?query` answers exactly as GET on `/api/expenses` |
| Router.PostWithQueryMisses | Backend.py:205-235 | POST compares the raw target, so `/api/expenses?query` answers 404 |

## Left out

- HTTP transport: sockets, headers, the CORS header values, `Content-Type`,
  `Content-Disposition`, status reason phrases and `serve_forever`.
- Response bodies: these are payload values, not JSON or CSV text.
  `json.dumps`, `csv.writer` quoting and the error message strings are not
  modelled.
- The SQLite engine, connections and `commit`. Each request is one atomic
  step on the database value.
- Concurrency between requests.
- Floating point: amounts and salaries are exact reals, so IEEE rounding of
  `SUM` and of `salary - total` is not modelled.
- `SUM` over an empty table is NULL, which the code reads as 0. The model's
  sum is 0 directly.
- The order among rows or groups with equal sort keys. SQLite leaves it
  unspecified; the contracts state only sortedness and permutation.
- Collation beyond code-point order.
- The contents of `index.html`. Only a flag saying whether the file exists
  is modelled.
- `log_message` and the startup code under `__main__`.
- Python `int()` accepts surrounding whitespace, `_` separators and
  non-ASCII digits. The model accepts an optional sign followed by ASCII
  digits only. Python also refuses a digit string longer than 4300
  characters with a ValueError. A PUT or DELETE with such an id then fails
  at the id, before the body is read. The model parses the id, and then
  reports the body, a missing key or the 64-bit range instead. The status is 400 and
  nothing is written either way; only the failure payload differs.
- `urlparse` handling of targets with a scheme or starting with `//`, and
  its stripping of control characters.
- JSON values of the wrong type. A JSON `null` for description stores NULL
  rather than "". The body is modelled as typed optional fields.
- `init_db` on a settings table whose AUTOINCREMENT counter is at the
  maximum rowid. That case raises at start-up and is not modelled; the
  invariant lemma assumes it away.
- An exception inside a GET handler is not caught by the code. The model's
  GET handlers cannot fail.
- A body that decodes to JSON other than an object (a list or a number,
  say) makes the key lookup raise. The model folds it into the malformed
  body, which gives the same 400.
