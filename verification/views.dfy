/** The read-only views the GET endpoints compute with SQL: the total, the
    salary report with its per-month savings, the per-category and per-month
    summaries (GROUP BY with SUM), the top-five categories (LIMIT 5), the
    expense list and the CSV export (ORDER BY date DESC). Amounts are exact
    reals, so every sum identity holds without rounding. */
module Views {
  import opened Base
  import opened Store
  import opened Sorting
  import Text

  // ---------------------------------------------------------------------------
  // Sums
  // ---------------------------------------------------------------------------

  /** `SUM(amount)` over all rows, with an empty table giving 0 as the
      salary endpoint reports it. */
  function Sum(rows: seq<Expense>): real
    decreases |rows|
  {
    if |rows| == 0 then 0.0 else rows[0].amount + Sum(rows[1..])
  }

  /** `SUM(amount) ... WHERE f(row) = x`: the reference meaning of one group. */
  function SumWhere(rows: seq<Expense>, f: Expense -> string, x: string): real
    decreases |rows|
  {
    if |rows| == 0 then 0.0
    else (if f(rows[0]) == x then rows[0].amount else 0.0) + SumWhere(rows[1..], f, x)
  }

  /** Some row has key `x`. */
  predicate Occurs(rows: seq<Expense>, f: Expense -> string, x: string)
  {
    exists i :: 0 <= i < |rows| && f(rows[i]) == x
  }

  function CategoryOf(e: Expense): string
  {
    e.category
  }

  /** `substr(date, 1, 7)`, the "YYYY-MM" month of a well-formed date. */
  function MonthOf(e: Expense): string
  {
    Text.Prefix(e.date, 7)
  }

  lemma {:induction false} SumAppend(rows: seq<Expense>, e: Expense)
    ensures Sum(rows + [e]) == Sum(rows) + e.amount
    decreases |rows|
  {
    if |rows| > 0 {
      assert (rows + [e])[1..] == rows[1..] + [e];
      SumAppend(rows[1..], e);
    }
  }

  lemma {:induction false} SumWhereAppend(rows: seq<Expense>, f: Expense -> string, x: string, e: Expense)
    ensures SumWhere(rows + [e], f, x) == SumWhere(rows, f, x) + (if f(e) == x then e.amount else 0.0)
    decreases |rows|
  {
    if |rows| > 0 {
      assert (rows + [e])[1..] == rows[1..] + [e];
      SumWhereAppend(rows[1..], f, x, e);
    }
  }

  lemma OccursCons(rows: seq<Expense>, f: Expense -> string, x: string)
    requires |rows| > 0
    ensures Occurs(rows, f, x) <==> f(rows[0]) == x || Occurs(rows[1..], f, x)
  {
    if Occurs(rows[1..], f, x) {
      var i :| 0 <= i < |rows[1..]| && f(rows[1..][i]) == x;
      assert f(rows[i + 1]) == x;
    }
  }

  // ---------------------------------------------------------------------------
  // GROUP BY
  // ---------------------------------------------------------------------------

  /** One output row of `SELECT key, SUM(amount) AS total ... GROUP BY key`. */
  datatype Group = Group(key: string, total: real)

  function KeyOf(g: Group): string
  {
    g.key
  }

  predicate Keyed(gs: seq<Group>, x: string)
  {
    exists j :: 0 <= j < |gs| && gs[j].key == x
  }

  /** The sum of the `total` column. */
  function TotalOf(gs: seq<Group>): real
    decreases |gs|
  {
    if |gs| == 0 then 0.0 else gs[0].total + TotalOf(gs[1..])
  }

  /** The sum of the totals of the groups keyed `x`. */
  function TotalFor(gs: seq<Group>, x: string): real
    decreases |gs|
  {
    if |gs| == 0 then 0.0
    else (if gs[0].key == x then gs[0].total else 0.0) + TotalFor(gs[1..], x)
  }

  lemma KeyedCons(gs: seq<Group>)
    requires |gs| > 0
    ensures forall x :: Keyed(gs, x) <==> gs[0].key == x || Keyed(gs[1..], x)
  {
    forall x | Keyed(gs, x)
      ensures gs[0].key == x || Keyed(gs[1..], x)
    {
      var j :| 0 <= j < |gs| && gs[j].key == x;
      if j > 0 { assert gs[1..][j - 1].key == x; }
    }
    forall x | Keyed(gs[1..], x)
      ensures Keyed(gs, x)
    {
      var j :| 0 <= j < |gs[1..]| && gs[1..][j].key == x;
      assert gs[j + 1].key == x;
    }
  }

  /** Adds amount `a` to the group `key`, opening that group if it is new. */
  function Add(gs: seq<Group>, key: string, a: real): (r: seq<Group>)
    ensures forall x :: Keyed(r, x) <==> Keyed(gs, x) || x == key
    ensures TotalOf(r) == TotalOf(gs) + a
    ensures forall x :: TotalFor(r, x) == TotalFor(gs, x) + (if x == key then a else 0.0)
    ensures DistinctBy(gs, KeyOf) ==> DistinctBy(r, KeyOf)
    decreases |gs|
  {
    if |gs| == 0 then
      var r := [Group(key, a)];
      KeyedCons(r);
      r
    else if gs[0].key == key then
      var r := [Group(key, gs[0].total + a)] + gs[1..];
      assert r[1..] == gs[1..];
      KeyedCons(gs);
      KeyedCons(r);
      assert forall j :: 0 <= j < |r| ==> KeyOf(r[j]) == KeyOf(gs[j]);
      r
    else
      var t := Add(gs[1..], key, a);
      var r := [gs[0]] + t;
      assert r[1..] == t;
      KeyedCons(gs);
      KeyedCons(r);
      assert DistinctBy(gs, KeyOf) ==> DistinctBy(r, KeyOf) by {
        if DistinctBy(gs, KeyOf) {
          assert DistinctBy(gs[1..], KeyOf) by {
            assert forall j :: 0 <= j < |gs[1..]| ==> gs[1..][j] == gs[j + 1];
          }
          assert !Keyed(gs[1..], gs[0].key) by {
            forall j | 0 <= j < |gs[1..]|
              ensures gs[1..][j].key != gs[0].key
            {
              assert KeyOf(gs[j + 1]) != KeyOf(gs[0]);
            }
          }
          forall j | 0 <= j < |t|
            ensures KeyOf(t[j]) != KeyOf(gs[0])
          {
            assert Keyed(t, t[j].key);
          }
        }
      }
      r
  }

  /** `GROUP BY f`: one group per distinct key, holding that key's sum. */
  function GroupBy(rows: seq<Expense>, f: Expense -> string): (r: seq<Group>)
    ensures DistinctBy(r, KeyOf)
    ensures forall x :: Keyed(r, x) <==> Occurs(rows, f, x)
    ensures forall x :: TotalFor(r, x) == SumWhere(rows, f, x)
    ensures TotalOf(r) == Sum(rows)
    decreases |rows|
  {
    if |rows| == 0 then []
    else
      var r := Add(GroupBy(rows[1..], f), f(rows[0]), rows[0].amount);
      assert forall x :: Occurs(rows, f, x) <==> f(rows[0]) == x || Occurs(rows[1..], f, x) by {
        forall x
          ensures Occurs(rows, f, x) <==> f(rows[0]) == x || Occurs(rows[1..], f, x)
        {
          OccursCons(rows, f, x);
        }
      }
      r
  }

  /** In groups with distinct keys, a group's total is everything summed
      under its key. */
  lemma {:induction false} TotalForDistinct(gs: seq<Group>, j: int)
    requires DistinctBy(gs, KeyOf)
    requires 0 <= j < |gs|
    ensures TotalFor(gs, gs[j].key) == gs[j].total
    decreases |gs|
  {
    var x := gs[j].key;
    assert DistinctBy(gs[1..], KeyOf) by {
      assert forall i :: 0 <= i < |gs[1..]| ==> gs[1..][i] == gs[i + 1];
    }
    if j == 0 {
      AbsentTotalFor(gs[1..], x);
    } else {
      assert KeyOf(gs[0]) != KeyOf(gs[j]);
      TotalForDistinct(gs[1..], j - 1);
    }
  }

  lemma {:induction false} AbsentTotalFor(gs: seq<Group>, x: string)
    requires !Keyed(gs, x)
    ensures TotalFor(gs, x) == 0.0
    decreases |gs|
  {
    if |gs| > 0 {
      AbsentTotalFor(gs[1..], x);
    }
  }

  // ---------------------------------------------------------------------------
  // ORDER BY keys
  // ---------------------------------------------------------------------------

  /** `ORDER BY total DESC` */
  predicate ByTotalDesc(a: Group, b: Group)
  {
    a.total >= b.total
  }

  /** `ORDER BY month` */
  predicate ByKeyAsc(a: Group, b: Group)
  {
    Text.Le(a.key, b.key)
  }

  /** `ORDER BY month DESC` */
  predicate ByKeyDesc(a: Group, b: Group)
  {
    Text.Le(b.key, a.key)
  }

  /** `ORDER BY date DESC` */
  predicate ByDateDesc(a: Expense, b: Expense)
  {
    Text.Le(b.date, a.date)
  }

  lemma ByTotalDescPreorder()
    ensures TotalPreorder(ByTotalDesc)
  {
  }

  lemma ByKeyPreorders()
    ensures TotalPreorder(ByKeyAsc)
    ensures TotalPreorder(ByKeyDesc)
  {
    forall a: Group, b: Group
      ensures ByKeyAsc(a, b) || ByKeyAsc(b, a)
    {
      Text.LeTotal(a.key, b.key);
    }
    forall a: Group, b: Group, c: Group | ByKeyAsc(a, b) && ByKeyAsc(b, c)
      ensures ByKeyAsc(a, c)
    {
      Text.LeTransitive(a.key, b.key, c.key);
    }
    forall a: Group, b: Group
      ensures ByKeyDesc(a, b) || ByKeyDesc(b, a)
    {
      Text.LeTotal(a.key, b.key);
    }
    forall a: Group, b: Group, c: Group | ByKeyDesc(a, b) && ByKeyDesc(b, c)
      ensures ByKeyDesc(a, c)
    {
      Text.LeTransitive(c.key, b.key, a.key);
    }
  }

  lemma ByDateDescPreorder()
    ensures TotalPreorder(ByDateDesc)
  {
    forall a: Expense, b: Expense
      ensures ByDateDesc(a, b) || ByDateDesc(b, a)
    {
      Text.LeTotal(a.date, b.date);
    }
    forall a: Expense, b: Expense, c: Expense | ByDateDesc(a, b) && ByDateDesc(b, c)
      ensures ByDateDesc(a, c)
    {
      Text.LeTransitive(c.date, b.date, a.date);
    }
  }

  // ---------------------------------------------------------------------------
  // Sorted summaries
  // ---------------------------------------------------------------------------

  lemma {:induction false} TotalOfInsert(g: Group, gs: seq<Group>, before: (Group, Group) -> bool)
    requires TotalPreorder(before) && Sorted(gs, before)
    ensures TotalOf(Insert(g, gs, before)) == g.total + TotalOf(gs)
    decreases |gs|
  {
    if |gs| > 0 && !before(g, gs[0]) {
      TotalOfInsert(g, gs[1..], before);
      var r := Insert(g, gs, before);
      assert r[1..] == Insert(g, gs[1..], before);
    }
  }

  /** Reordering the groups does not change the sum of their totals. */
  lemma {:induction false} TotalOfSort(gs: seq<Group>, before: (Group, Group) -> bool)
    requires TotalPreorder(before)
    ensures TotalOf(SortBy(gs, before)) == TotalOf(gs)
    decreases |gs|
  {
    if |gs| > 0 {
      TotalOfSort(gs[1..], before);
      TotalOfInsert(gs[0], SortBy(gs[1..], before), before);
    }
  }

  /** `SELECT key, SUM(amount) ... GROUP BY key ORDER BY ...`: one row per
      key present, each with its key's sum, sorted by `before`. */
  function Summarize(rows: seq<Expense>, f: Expense -> string, before: (Group, Group) -> bool): (r: seq<Group>)
    requires TotalPreorder(before)
    ensures Sorted(r, before)
    ensures DistinctBy(r, KeyOf)
    ensures forall x :: Keyed(r, x) <==> Occurs(rows, f, x)
    ensures forall j :: 0 <= j < |r| ==> r[j].total == SumWhere(rows, f, r[j].key)
    ensures TotalOf(r) == Sum(rows)
  {
    var g := GroupBy(rows, f);
    var r := SortBy(g, before);
    SortDistinctBy(g, before, KeyOf);
    TotalOfSort(g, before);
    SameKeys(g, r);
    TotalsCarryOver(rows, f, g, r);
    r
  }

  /** Two group lists with the same elements have the same keys. */
  lemma SameKeys(g: seq<Group>, r: seq<Group>)
    requires forall y :: y in r <==> y in g
    ensures forall x :: Keyed(r, x) <==> Keyed(g, x)
  {
    forall x | Keyed(r, x)
      ensures Keyed(g, x)
    {
      var j :| 0 <= j < |r| && r[j].key == x;
      assert r[j] in g;
    }
    forall x | Keyed(g, x)
      ensures Keyed(r, x)
    {
      var j :| 0 <= j < |g| && g[j].key == x;
      assert g[j] in r;
    }
  }

  /** Groups drawn from a grouping with distinct keys keep its per-key sums. */
  lemma TotalsCarryOver(rows: seq<Expense>, f: Expense -> string, g: seq<Group>, r: seq<Group>)
    requires DistinctBy(g, KeyOf)
    requires forall x :: TotalFor(g, x) == SumWhere(rows, f, x)
    requires forall y :: y in r ==> y in g
    ensures forall j :: 0 <= j < |r| ==> r[j].total == SumWhere(rows, f, r[j].key)
  {
    forall j | 0 <= j < |r|
      ensures r[j].total == SumWhere(rows, f, r[j].key)
    {
      assert r[j] in g;
      var m :| 0 <= m < |g| && g[m] == r[j];
      TotalForDistinct(g, m);
    }
  }

  /** `GET /api/summary/category`. */
  function CategorySummary(rows: seq<Expense>): (r: seq<Group>)
    ensures forall i, j :: 0 <= i < j < |r| ==> r[i].total >= r[j].total
    ensures DistinctBy(r, KeyOf)
    ensures forall x :: Keyed(r, x) <==> Occurs(rows, CategoryOf, x)
    ensures forall j :: 0 <= j < |r| ==> r[j].total == SumWhere(rows, CategoryOf, r[j].key)
    ensures TotalOf(r) == Sum(rows)
  {
    ByTotalDescPreorder();
    var r := Summarize(rows, CategoryOf, ByTotalDesc);
    assert forall i, j :: 0 <= i < j < |r| ==> ByTotalDesc(r[i], r[j]);
    r
  }

  /** `GET /api/summary/category/animated`: the same query with `LIMIT 5`. */
  function TopCategories(rows: seq<Expense>): (r: seq<Group>)
    ensures |r| == Min(5, |CategorySummary(rows)|)
    ensures r <= CategorySummary(rows)
    ensures forall i, j :: 0 <= i < |r| && |r| <= j < |CategorySummary(rows)| ==>
      r[i].total >= CategorySummary(rows)[j].total
  {
    var all := CategorySummary(rows);
    all[..Min(5, |all|)]
  }

  /** `GET /api/summary/monthly` (and `/monthly/animated`, the same query):
      months in strictly ascending order. */
  function MonthlySummary(rows: seq<Expense>): (r: seq<Group>)
    ensures forall i, j :: 0 <= i < j < |r| ==> Text.Lt(r[i].key, r[j].key)
    ensures forall x :: Keyed(r, x) <==> Occurs(rows, MonthOf, x)
    ensures forall j :: 0 <= j < |r| ==> r[j].total == SumWhere(rows, MonthOf, r[j].key)
    ensures TotalOf(r) == Sum(rows)
  {
    ByKeyPreorders();
    var r := Summarize(rows, MonthOf, ByKeyAsc);
    StrictlyAscending(r);
    r
  }

  /** Groups sorted oldest key first, with no key twice, have strictly
      rising keys. */
  lemma StrictlyAscending(g: seq<Group>)
    requires Sorted(g, ByKeyAsc) && DistinctBy(g, KeyOf)
    ensures forall i, j :: 0 <= i < j < |g| ==> Text.Lt(g[i].key, g[j].key)
  {
    forall i, j | 0 <= i < j < |g|
      ensures Text.Lt(g[i].key, g[j].key)
    {
      assert ByKeyAsc(g[i], g[j]) && KeyOf(g[i]) != KeyOf(g[j]);
    }
  }

  /** One entry of `monthly_savings`. */
  datatype Saving = Saving(month: string, savings: real)

  predicate HasMonth(s: seq<Saving>, x: string)
  {
    exists j :: 0 <= j < |s| && s[j].month == x
  }

  /** The `monthly_savings` list: per month, newest first, the salary less
      that month's spending. */
  function MonthlySavings(salary: real, rows: seq<Expense>): (r: seq<Saving>)
    ensures forall i, j :: 0 <= i < j < |r| ==> Text.Lt(r[j].month, r[i].month)
    ensures forall x :: HasMonth(r, x) <==> Occurs(rows, MonthOf, x)
    ensures forall j :: 0 <= j < |r| ==> r[j].savings == salary - SumWhere(rows, MonthOf, r[j].month)
  {
    ByKeyPreorders();
    var g := Summarize(rows, MonthOf, ByKeyDesc);
    StrictlyDescending(g);
    var r := SavingsOf(salary, g);
    SavingsMonths(salary, g);
    r
  }

  /** Groups sorted newest key first, with no key twice, have strictly
      falling keys. */
  lemma StrictlyDescending(g: seq<Group>)
    requires Sorted(g, ByKeyDesc) && DistinctBy(g, KeyOf)
    ensures forall i, j :: 0 <= i < j < |g| ==> Text.Lt(g[j].key, g[i].key)
  {
    forall i, j | 0 <= i < j < |g|
      ensures Text.Lt(g[j].key, g[i].key)
    {
      assert ByKeyDesc(g[i], g[j]) && KeyOf(g[i]) != KeyOf(g[j]);
    }
  }

  /** Each group's key paired with the salary less the group's total. */
  function SavingsOf(salary: real, g: seq<Group>): (r: seq<Saving>)
    ensures |r| == |g|
    ensures forall j :: 0 <= j < |g| ==> r[j] == Saving(g[j].key, salary - g[j].total)
    decreases |g|
  {
    if |g| == 0 then [] else [Saving(g[0].key, salary - g[0].total)] + SavingsOf(salary, g[1..])
  }

  /** The savings list names exactly the groups' keys. */
  lemma SavingsMonths(salary: real, g: seq<Group>)
    ensures forall x :: HasMonth(SavingsOf(salary, g), x) <==> Keyed(g, x)
  {
    var r := SavingsOf(salary, g);
    forall x | Keyed(g, x)
      ensures HasMonth(r, x)
    {
      var j :| 0 <= j < |g| && g[j].key == x;
      assert r[j].month == x;
    }
  }

  /** The savings list and the monthly summary cover the same months, and
      each month's savings is the salary less that month's summary total. */
  lemma SavingsMatchSummary(salary: real, rows: seq<Expense>)
    ensures var s := MonthlySavings(salary, rows);
      var m := MonthlySummary(rows);
      && (forall x :: HasMonth(s, x) <==> Keyed(m, x))
      && (forall i, j :: 0 <= i < |s| && 0 <= j < |m| && s[i].month == m[j].key ==> s[i].savings == salary - m[j].total)
  {
  }

  // ---------------------------------------------------------------------------
  // Listing and export
  // ---------------------------------------------------------------------------

  /** `SELECT * FROM expenses ORDER BY date DESC`: every row once, newest
      date first. */
  function ListExpenses(rows: seq<Expense>): (r: seq<Expense>)
    ensures multiset(r) == multiset(rows)
    ensures forall i, j :: 0 <= i < j < |r| ==> Text.Le(r[j].date, r[i].date)
  {
    ByDateDescPreorder();
    var r := SortBy(rows, ByDateDesc);
    assert forall i, j :: 0 <= i < j < |r| ==> ByDateDesc(r[i], r[j]);
    r
  }

  /** A CSV field before `csv.writer` renders it: text, or a REAL amount
      (rendered by Python's `str(float)`). */
  datatype Cell = Str(s: string) | Num(r: real)

  const CsvHeader: seq<Cell> := [Str("ID"), Str("Date"), Str("Category"), Str("Description"), Str("Amount")]

  /** The fields written for one expense: id, date, category, description, amount. */
  function CsvRecord(e: Expense): seq<Cell>
  {
    [Str(Text.DecimalString(e.id)), Str(e.date), Str(e.category), Str(e.description), Num(e.amount)]
  }

  /** The Date field of a written record. */
  function DateField(rec: seq<Cell>): string
  {
    if |rec| > 1 && rec[1].Str? then rec[1].s else ""
  }

  /** The records of a list of expenses, in its order. */
  function Records(l: seq<Expense>): (r: seq<seq<Cell>>)
    ensures |r| == |l|
    ensures forall i :: 0 <= i < |l| ==> r[i] == CsvRecord(l[i])
    decreases |l|
  {
    if |l| == 0 then [] else [CsvRecord(l[0])] + Records(l[1..])
  }

  lemma RecordsAppend(u: seq<Expense>, v: seq<Expense>)
    ensures Records(u + v) == Records(u) + Records(v)
  {
  }

  /** Taking one expense out takes its record out. */
  lemma RecordsRemove(b: seq<Expense>, k: int)
    requires 0 <= k < |b|
    ensures multiset(Records(b)) == multiset(Records(b[..k] + b[k + 1..])) + multiset{CsvRecord(b[k])}
  {
    var u, v := b[..k], b[k + 1..];
    var x := b[k];
    SplitAround(b, k);
    RecordsAppend(u, [x] + v);
    RecordsCons(x, v);
    RecordsAppend(u, v);
    MultisetMiddle(Records(u), CsvRecord(x), Records(v));
  }

  lemma RecordsCons(x: Expense, v: seq<Expense>)
    ensures Records([x] + v) == [CsvRecord(x)] + Records(v)
  {
    assert ([x] + v)[1..] == v;
  }

  lemma SplitAround<T>(b: seq<T>, k: int)
    requires 0 <= k < |b|
    ensures b == b[..k] + ([b[k]] + b[k + 1..])
  {
  }

  lemma MultisetMiddle<T>(a: seq<T>, y: T, c: seq<T>)
    ensures multiset(a + ([y] + c)) == multiset(a + c) + multiset{y}
  {
  }

  /** Reordering the expenses reorders their records the same way. */
  lemma {:induction false} RecordsPermutation(a: seq<Expense>, b: seq<Expense>)
    requires multiset(a) == multiset(b)
    ensures multiset(Records(a)) == multiset(Records(b))
    decreases |a|
  {
    if |a| == 0 {
      assert |b| == |multiset(b)| == 0;
    } else {
      var x := a[0];
      assert x in multiset(b);
      var k :| 0 <= k < |b| && b[k] == x;
      var b' := b[..k] + b[k + 1..];
      assert multiset(a[1..]) == multiset(b') by {
        assert b == b[..k] + [x] + b[k + 1..];
        assert a == [x] + a[1..];
        assert multiset(a[1..]) == multiset(a) - multiset{x};
        assert multiset(b') == multiset(b) - multiset{x};
      }
      RecordsPermutation(a[1..], b');
      RecordsRemove(a, 0);
      assert a[..0] + a[1..] == a[1..];
      RecordsRemove(b, k);
    }
  }

  /** `GET /api/export/csv`: the header, then the record of every expense,
      each as often as it occurs in the table. */
  function ExportCsv(rows: seq<Expense>): (r: seq<seq<Cell>>)
    ensures |r| == |rows| + 1
    ensures r[0] == CsvHeader
    ensures multiset(r[1..]) == multiset(Records(rows))
  {
    var l := ListExpenses(rows);
    assert |l| == |rows| by {
      assert |multiset(l)| == |multiset(rows)|;
    }
    var r := [CsvHeader] + Records(l);
    assert r[1..] == Records(l);
    RecordsPermutation(l, rows);
    r
  }

  /** The export is the header followed by the records of the listing. */
  lemma ExportCsvLayout(rows: seq<Expense>)
    ensures ExportCsv(rows) == [CsvHeader] + Records(ListExpenses(rows))
  {
  }

  /** Every expense has its record in the export. */
  lemma CsvHasEveryExpense(rows: seq<Expense>, e: Expense)
    requires e in rows
    ensures CsvRecord(e) in ExportCsv(rows)[1..]
  {
    var l := ListExpenses(rows);
    var body := Records(l);
    ExportCsvLayout(rows);
    assert ExportCsv(rows)[1..] == body;
    assert e in multiset(l);
    var m :| 0 <= m < |l| && l[m] == e;
    assert body[m] == CsvRecord(e);
  }

  lemma DateFieldOfRecord(e: Expense)
    ensures DateField(CsvRecord(e)) == e.date
  {
  }

  /** The export lists records newest date first. */
  lemma CsvNewestFirst(rows: seq<Expense>, i: int, j: int)
    requires 1 <= i < j < |ExportCsv(rows)|
    ensures Text.Le(DateField(ExportCsv(rows)[j]), DateField(ExportCsv(rows)[i]))
  {
    var l := ListExpenses(rows);
    var a, b := l[i - 1], l[j - 1];
    assert ExportCsv(rows)[i] == CsvRecord(a) && ExportCsv(rows)[j] == CsvRecord(b) by {
      ExportCsvLayout(rows);
    }
    assert Text.Le(b.date, a.date);
    DateFieldOfRecord(a);
    DateFieldOfRecord(b);
  }

  /** Each data row is the record of some expense of the table. */
  lemma CsvRowOfSomeExpense(rows: seq<Expense>, i: int) returns (e: Expense)
    requires 1 <= i < |ExportCsv(rows)|
    ensures e in rows && ExportCsv(rows)[i] == CsvRecord(e)
  {
    var r := ExportCsv(rows);
    assert r[i] == r[1..][i - 1];
    assert r[i] in multiset(Records(rows));
    var k :| 0 <= k < |rows| && Records(rows)[k] == r[i];
    e := rows[k];
  }

  /** The ID column reads back, through the same integer parser the routes
      use, as the id of the expense it was written for. */
  lemma CsvIdsReadBack(rows: seq<Expense>, i: int)
    requires 1 <= i < |ExportCsv(rows)|
    ensures exists e :: e in rows && ExportCsv(rows)[i] == CsvRecord(e) && Text.ParseInt(ExportCsv(rows)[i][0].s) == Some(e.id)
  {
    var e := CsvRowOfSomeExpense(rows, i);
    Text.ParseDecimalString(e.id);
  }

  // ---------------------------------------------------------------------------
  // Salary report
  // ---------------------------------------------------------------------------

  datatype SalaryView = SalaryView(salary: real, totalExpenses: real, remaining: real, monthlySavings: seq<Saving>)

  /** `GET /api/salary`. */
  function SalaryReport(db: Db): (r: SalaryView)
    ensures r.salary == Salary(db)
    ensures r.totalExpenses == Sum(db.expenses)
    ensures r.remaining == r.salary - r.totalExpenses
    ensures forall i, j :: 0 <= i < j < |r.monthlySavings| ==> Text.Lt(r.monthlySavings[j].month, r.monthlySavings[i].month)
    ensures forall j :: 0 <= j < |r.monthlySavings| ==>
      r.monthlySavings[j].savings == r.salary - SumWhere(db.expenses, MonthOf, r.monthlySavings[j].month)
    ensures forall x :: HasMonth(r.monthlySavings, x) <==> Occurs(db.expenses, MonthOf, x)
  {
    var salary := Salary(db);
    var total := Sum(db.expenses);
    SalaryView(salary, total, salary - total, MonthlySavings(salary, db.expenses))
  }

  /** Adding an expense raises the total by its amount and its month's
      spending by the same. */
  lemma TotalsAfterInsert(db: Db, date: string, category: string, description: string, amount: real)
    requires db.expenseSeq < MaxRowId
    ensures var db' := InsertExpense(db, date, category, description, amount).value.db;
      && Sum(db'.expenses) == Sum(db.expenses) + amount
      && SumWhere(db'.expenses, CategoryOf, category) == SumWhere(db.expenses, CategoryOf, category) + amount
      && SumWhere(db'.expenses, MonthOf, Text.Prefix(date, 7)) == SumWhere(db.expenses, MonthOf, Text.Prefix(date, 7)) + amount
  {
    var ins := InsertExpense(db, date, category, description, amount).value;
    var e := Expense(ins.id, date, category, description, amount);
    assert ins.db.expenses == db.expenses + [e];
    SumAppend(db.expenses, e);
    SumWhereAppend(db.expenses, CategoryOf, category, e);
    SumWhereAppend(db.expenses, MonthOf, Text.Prefix(date, 7), e);
  }
}
