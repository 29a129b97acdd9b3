/** The two SQLite tables of `expenses.db` and the statements that write them:
    the schema set-up `init_db`, the INSERT of a new expense, the UPDATE and
    DELETE by id, and the salary UPDATE. Each table is a sequence of rows in
    rowid order; each also keeps the AUTOINCREMENT high-water mark that SQLite
    stores in `sqlite_sequence`. */
module Store {
  import opened Base

  /** Largest SQLite INTEGER (signed 64-bit); no rowid may exceed it. */
  const MaxRowId: int := 0x7FFF_FFFF_FFFF_FFFF

  datatype Expense = Expense(id: int, date: string, category: string, description: string, amount: real)

  datatype SettingsRow = SettingsRow(id: int, salary: real)

  /** `expenseSeq` and `settingsSeq` are the largest ids ever handed out. */
  datatype Db = Db(expenses: seq<Expense>, expenseSeq: int, settings: seq<SettingsRow>, settingsSeq: int)

  /** A database file on which `CREATE TABLE IF NOT EXISTS` has just made
      both tables. */
  const EmptyDb := Db([], 0, [], 0)

  // ---------------------------------------------------------------------------
  // Well-formedness
  // ---------------------------------------------------------------------------

  /** Ids kept by an AUTOINCREMENT table: positive, strictly increasing in
      rowid order, and never above the high-water mark. */
  predicate IdsBelow(ids: seq<int>, hi: int)
  {
    && 0 <= hi <= MaxRowId
    && (forall i :: 0 <= i < |ids| ==> 0 < ids[i] <= hi)
    && (forall i, j :: 0 <= i < j < |ids| ==> ids[i] < ids[j])
  }

  function ExpenseIds(rows: seq<Expense>): (ids: seq<int>)
    ensures |ids| == |rows|
    ensures forall i :: 0 <= i < |rows| ==> ids[i] == rows[i].id
  {
    seq(|rows|, i requires 0 <= i < |rows| => rows[i].id)
  }

  function SettingsIds(rows: seq<SettingsRow>): (ids: seq<int>)
    ensures |ids| == |rows|
    ensures forall i :: 0 <= i < |rows| ==> ids[i] == rows[i].id
  {
    seq(|rows|, i requires 0 <= i < |rows| => rows[i].id)
  }

  predicate Valid(db: Db)
  {
    && IdsBelow(ExpenseIds(db.expenses), db.expenseSeq)
    && IdsBelow(SettingsIds(db.settings), db.settingsSeq)
  }

  predicate HasExpense(rows: seq<Expense>, k: int)
  {
    exists i :: 0 <= i < |rows| && rows[i].id == k
  }

  /** The row `SELECT ... WHERE id = k` finds, if any. */
  function Lookup(rows: seq<Expense>, k: int): (r: Option<Expense>)
    ensures r.Some? <==> HasExpense(rows, k)
    ensures r.Some? ==> r.value in rows && r.value.id == k
    decreases |rows|
  {
    if |rows| == 0 then None
    else if rows[0].id == k then Some(rows[0])
    else
      var r := Lookup(rows[1..], k);
      assert HasExpense(rows, k) ==> HasExpense(rows[1..], k) by {
        if HasExpense(rows, k) {
          var i :| 0 <= i < |rows| && rows[i].id == k;
          assert rows[1..][i - 1].id == k;
        }
      }
      r
  }

  // ---------------------------------------------------------------------------
  // init_db
  // ---------------------------------------------------------------------------

  /** `init_db`: the tables already exist (or were just created empty); a
      settings row with salary 0 is inserted only when that table is empty. */
  function InitDb(db: Db): (r: Db)
    ensures r.expenses == db.expenses && r.expenseSeq == db.expenseSeq
    ensures |r.settings| >= 1
    ensures |db.settings| > 0 ==> r == db
    ensures |db.settings| == 0 ==>
      r.settings == [SettingsRow(db.settingsSeq + 1, 0.0)] && r.settingsSeq == db.settingsSeq + 1
  {
    if |db.settings| == 0 then
      var id := db.settingsSeq + 1;
      db.(settings := [SettingsRow(id, 0.0)], settingsSeq := id)
    else db
  }

  // ---------------------------------------------------------------------------
  // Expense writes
  // ---------------------------------------------------------------------------

  datatype Inserted = Inserted(db: Db, id: int)

  /** `INSERT INTO expenses ...` with an AUTOINCREMENT id. `None` is SQLITE_FULL:
      the largest id has already been used. */
  function InsertExpense(db: Db, date: string, category: string, description: string, amount: real): (r: Option<Inserted>)
    ensures r.None? <==> db.expenseSeq >= MaxRowId
    ensures r.Some? ==>
      && r.value.id > db.expenseSeq
      && |r.value.db.expenses| == |db.expenses| + 1
      && r.value.db.expenses[..|db.expenses|] == db.expenses
      && r.value.db.expenses[|db.expenses|] == Expense(r.value.id, date, category, description, amount)
      && r.value.db.settings == db.settings
      && r.value.db.settingsSeq == db.settingsSeq
      && r.value.db.expenseSeq == r.value.id
  {
    if db.expenseSeq >= MaxRowId then None
    else
      var id := db.expenseSeq + 1;
      var row := Expense(id, date, category, description, amount);
      Some(Inserted(db.(expenses := db.expenses + [row], expenseSeq := id), id))
  }

  /** The rows after `UPDATE expenses SET ... WHERE id = k`. */
  function UpdateRows(rows: seq<Expense>, k: int, date: string, category: string, description: string, amount: real): (r: seq<Expense>)
    ensures |r| == |rows|
    ensures forall i :: 0 <= i < |rows| ==>
      r[i] == if rows[i].id == k then Expense(k, date, category, description, amount) else rows[i]
    decreases |rows|
  {
    if |rows| == 0 then []
    else
      var head := if rows[0].id == k then Expense(k, date, category, description, amount) else rows[0];
      [head] + UpdateRows(rows[1..], k, date, category, description, amount)
  }

  function UpdateExpense(db: Db, k: int, date: string, category: string, description: string, amount: real): (r: Db)
    ensures r.settings == db.settings && r.expenseSeq == db.expenseSeq && r.settingsSeq == db.settingsSeq
    ensures ExpenseIds(r.expenses) == ExpenseIds(db.expenses)
  {
    db.(expenses := UpdateRows(db.expenses, k, date, category, description, amount))
  }

  /** The rows after `DELETE FROM expenses WHERE id = k`, in their old order. */
  function DeleteRows(rows: seq<Expense>, k: int): (r: seq<Expense>)
    ensures |r| <= |rows|
    ensures forall e :: e in r <==> e in rows && e.id != k
    decreases |rows|
  {
    if |rows| == 0 then []
    else if rows[0].id == k then DeleteRows(rows[1..], k)
    else [rows[0]] + DeleteRows(rows[1..], k)
  }

  function DeleteExpense(db: Db, k: int): (r: Db)
    ensures !HasExpense(r.expenses, k)
    ensures r.settings == db.settings && r.expenseSeq == db.expenseSeq && r.settingsSeq == db.settingsSeq
  {
    db.(expenses := DeleteRows(db.expenses, k))
  }

  // ---------------------------------------------------------------------------
  // Salary
  // ---------------------------------------------------------------------------

  /** No settings row before position `i` has id 1. */
  predicate NoSalaryRowBefore(rows: seq<SettingsRow>, i: int)
  {
    forall j :: 0 <= j < i && j < |rows| ==> rows[j].id != 1
  }

  /** `SELECT monthly_salary FROM settings WHERE id = 1`, or 0 when there is no
      such row. */
  function Salary(db: Db): (r: real)
    ensures NoSalaryRowBefore(db.settings, |db.settings|) ==> r == 0.0
    ensures forall i :: 0 <= i < |db.settings| && db.settings[i].id == 1 && NoSalaryRowBefore(db.settings, i) ==>
      r == db.settings[i].salary
  {
    SalaryIn(db.settings)
  }

  function SalaryIn(rows: seq<SettingsRow>): (r: real)
    ensures NoSalaryRowBefore(rows, |rows|) ==> r == 0.0
    ensures forall i :: 0 <= i < |rows| && rows[i].id == 1 && NoSalaryRowBefore(rows, i) ==> r == rows[i].salary
    decreases |rows|
  {
    if |rows| == 0 then 0.0
    else if rows[0].id == 1 then rows[0].salary
    else
      var r := SalaryIn(rows[1..]);
      assert forall i :: 1 <= i <= |rows| && NoSalaryRowBefore(rows, i) ==> NoSalaryRowBefore(rows[1..], i - 1);
      r
  }

  /** `UPDATE settings SET monthly_salary = v WHERE id = 1`. */
  function SetSalaryRows(rows: seq<SettingsRow>, v: real): (r: seq<SettingsRow>)
    ensures |r| == |rows|
    ensures forall i :: 0 <= i < |rows| ==> r[i] == if rows[i].id == 1 then SettingsRow(1, v) else rows[i]
    decreases |rows|
  {
    if |rows| == 0 then []
    else [if rows[0].id == 1 then SettingsRow(1, v) else rows[0]] + SetSalaryRows(rows[1..], v)
  }

  function SetSalary(db: Db, v: real): (r: Db)
    ensures r.expenses == db.expenses && r.expenseSeq == db.expenseSeq && r.settingsSeq == db.settingsSeq
    ensures SettingsIds(r.settings) == SettingsIds(db.settings)
  {
    db.(settings := SetSalaryRows(db.settings, v))
  }

  // ---------------------------------------------------------------------------
  // Properties of the writes
  // ---------------------------------------------------------------------------

  /** Running `init_db` at every start-up is harmless: the second run changes
      nothing, and a database that had at most one settings row ends with
      exactly one. */
  lemma InitDbIdempotent(db: Db)
    ensures InitDb(InitDb(db)) == InitDb(db)
    ensures |db.settings| <= 1 ==> |InitDb(db).settings| == 1
    ensures Valid(db) && (|db.settings| > 0 || db.settingsSeq < MaxRowId) ==> Valid(InitDb(db))
  {
  }

  /** The first start-up creates the single settings row, id 1, salary 0. */
  lemma InitFreshDb()
    ensures InitDb(EmptyDb).settings == [SettingsRow(1, 0.0)]
    ensures InitDb(EmptyDb).expenses == []
    ensures Salary(InitDb(EmptyDb)) == 0.0
    ensures Valid(InitDb(EmptyDb))
  {
  }

  /** The id of a new expense is larger than every id the table ever handed
      out, the new row reads back with the submitted fields, and no other row
      changes. */
  lemma InsertFresh(db: Db, date: string, category: string, description: string, amount: real)
    requires Valid(db)
    requires db.expenseSeq < MaxRowId
    ensures var r := InsertExpense(db, date, category, description, amount).value;
      && (forall i :: 0 <= i < |db.expenses| ==> db.expenses[i].id < r.id)
      && !HasExpense(db.expenses, r.id)
      && Lookup(r.db.expenses, r.id) == Some(Expense(r.id, date, category, description, amount))
      && (forall j :: j != r.id ==> Lookup(r.db.expenses, j) == Lookup(db.expenses, j))
      && Valid(r.db)
  {
    var r := InsertExpense(db, date, category, description, amount).value;
    var row := Expense(r.id, date, category, description, amount);
    InsertValid(db, date, category, description, amount);
    assert r.db.expenses == db.expenses + [row];
    LookupAppend(db.expenses, row);
  }

  /** The new id is above every id in the table, and the table stays well formed. */
  lemma InsertValid(db: Db, date: string, category: string, description: string, amount: real)
    requires Valid(db)
    requires db.expenseSeq < MaxRowId
    ensures var r := InsertExpense(db, date, category, description, amount).value;
      && (forall i :: 0 <= i < |db.expenses| ==> db.expenses[i].id < r.id)
      && !HasExpense(db.expenses, r.id)
      && Valid(r.db)
  {
    var r := InsertExpense(db, date, category, description, amount).value;
    var ids := ExpenseIds(r.db.expenses);
    assert forall i :: 0 <= i < |db.expenses| ==> ids[i] == db.expenses[i].id;
  }

  lemma {:induction false} LookupAppend(rows: seq<Expense>, row: Expense)
    requires !HasExpense(rows, row.id)
    ensures Lookup(rows + [row], row.id) == Some(row)
    ensures forall j :: j != row.id ==> Lookup(rows + [row], j) == Lookup(rows, j)
    decreases |rows|
  {
    if |rows| > 0 {
      assert (rows + [row])[1..] == rows[1..] + [row];
      LookupAppend(rows[1..], row);
    }
  }

  /** `UPDATE ... WHERE id = k` rewrites record k, if there is one, and reads
      back every other id as before. */
  lemma {:induction false} LookupAfterUpdate(rows: seq<Expense>, k: int, date: string, category: string, description: string, amount: real, j: int)
    ensures Lookup(UpdateRows(rows, k, date, category, description, amount), j) ==
      if j != k then Lookup(rows, j)
      else if HasExpense(rows, k) then Some(Expense(k, date, category, description, amount))
      else None
    decreases |rows|
  {
    if |rows| > 0 {
      var r := UpdateRows(rows, k, date, category, description, amount);
      assert r[1..] == UpdateRows(rows[1..], k, date, category, description, amount);
      LookupAfterUpdate(rows[1..], k, date, category, description, amount, j);
      if rows[0].id != k && HasExpense(rows, k) {
        var i :| 0 <= i < |rows| && rows[i].id == k;
        assert rows[1..][i - 1].id == k;
      }
    }
  }

  /** Updating an id that no row has leaves the database as it was. */
  lemma UpdateMissingIsNoop(db: Db, k: int, date: string, category: string, description: string, amount: real)
    requires !HasExpense(db.expenses, k)
    ensures UpdateExpense(db, k, date, category, description, amount) == db
  {
    var r := UpdateRows(db.expenses, k, date, category, description, amount);
    assert forall i :: 0 <= i < |r| ==> r[i] == db.expenses[i];
  }

  /** An update keeps every id, so it keeps the database well formed. */
  lemma UpdateValid(db: Db, k: int, date: string, category: string, description: string, amount: real)
    requires Valid(db)
    ensures Valid(UpdateExpense(db, k, date, category, description, amount))
  {
  }

  /** `DELETE ... WHERE id = k` removes record k and no other. */
  lemma {:induction false} LookupAfterDelete(rows: seq<Expense>, k: int, j: int)
    ensures Lookup(DeleteRows(rows, k), j) == if j == k then None else Lookup(rows, j)
    decreases |rows|
  {
    if |rows| > 0 {
      LookupAfterDelete(rows[1..], k, j);
      if rows[0].id != k {
        assert ([rows[0]] + DeleteRows(rows[1..], k))[1..] == DeleteRows(rows[1..], k);
      }
    }
  }

  /** Deleting an id that no row has leaves the rows as they were. */
  lemma {:induction false} DeleteMissingIsNoop(rows: seq<Expense>, k: int)
    requires !HasExpense(rows, k)
    ensures DeleteRows(rows, k) == rows
    decreases |rows|
  {
    if |rows| > 0 {
      MissingFromTail(rows, k);
      DeleteMissingIsNoop(rows[1..], k);
      DeleteKeepsHead(rows, k);
      assert rows == [rows[0]] + rows[1..];
    }
  }

  /** A first row with another id survives a delete, in front. */
  lemma DeleteKeepsHead(rows: seq<Expense>, k: int)
    requires |rows| > 0 && rows[0].id != k
    ensures DeleteRows(rows, k) == [rows[0]] + DeleteRows(rows[1..], k)
  {
  }

  /** An id missing from the rows is missing from the first row and the rest. */
  lemma MissingFromTail(rows: seq<Expense>, k: int)
    requires |rows| > 0 && !HasExpense(rows, k)
    ensures rows[0].id != k && !HasExpense(rows[1..], k)
  {
    forall i | 0 <= i < |rows| - 1
      ensures rows[1..][i].id != k
    {
      assert rows[1..][i] == rows[i + 1];
    }
  }

  /** Ids are strictly increasing along the rows. */
  predicate Increasing(rows: seq<Expense>)
  {
    forall i, j :: 0 <= i < j < |rows| ==> rows[i].id < rows[j].id
  }

  /** A delete keeps the surviving rows in their order. */
  lemma {:induction false} DeleteIncreasing(rows: seq<Expense>, k: int)
    requires Increasing(rows)
    ensures Increasing(DeleteRows(rows, k))
    decreases |rows|
  {
    if |rows| > 0 {
      var tail := rows[1..];
      DeleteIncreasing(tail, k);
      if rows[0].id != k {
        var d := DeleteRows(tail, k);
        forall i | 0 <= i < |d|
          ensures rows[0].id < d[i].id
        {
          assert d[i] in d;
          var m :| 0 <= m < |tail| && tail[m] == d[i];
          assert rows[m + 1] == d[i];
        }
      }
    }
  }

  /** With ids unique, a delete removes one row when the id is present and
      none otherwise. */
  lemma {:induction false} DeleteCount(rows: seq<Expense>, k: int)
    requires Increasing(rows)
    ensures |DeleteRows(rows, k)| == |rows| - (if HasExpense(rows, k) then 1 else 0)
    decreases |rows|
  {
    if |rows| > 0 {
      var tail := rows[1..];
      DeleteCount(tail, k);
      if rows[0].id == k {
        assert !HasExpense(tail, k);
      } else {
        assert HasExpense(rows, k) ==> HasExpense(tail, k) by {
          if HasExpense(rows, k) {
            var i :| 0 <= i < |rows| && rows[i].id == k;
            assert tail[i - 1].id == k;
          }
        }
      }
    }
  }

  lemma DeleteValid(db: Db, k: int)
    requires Valid(db)
    ensures Valid(DeleteExpense(db, k))
    ensures |DeleteExpense(db, k).expenses| == |db.expenses| - (if HasExpense(db.expenses, k) then 1 else 0)
  {
    var rows := db.expenses;
    var d := DeleteRows(rows, k);
    assert Increasing(rows) by {
      assert forall i :: 0 <= i < |rows| ==> ExpenseIds(rows)[i] == rows[i].id;
    }
    DeleteIncreasing(rows, k);
    DeleteCount(rows, k);
    forall i | 0 <= i < |d|
      ensures 0 < d[i].id <= db.expenseSeq
    {
      assert d[i] in d;
      var m :| 0 <= m < |rows| && rows[m] == d[i];
      assert ExpenseIds(rows)[m] == d[i].id;
    }
    assert forall i :: 0 <= i < |d| ==> ExpenseIds(d)[i] == d[i].id;
  }

  /** After the salary update, the salary read back is the new value when
      the settings row 1 exists; without that row nothing changes. */
  lemma SalaryAfterSet(db: Db, v: real)
    ensures (exists i :: 0 <= i < |db.settings| && db.settings[i].id == 1) ==> Salary(SetSalary(db, v)) == v
    ensures NoSalaryRowBefore(db.settings, |db.settings|) ==> SetSalary(db, v) == db
    ensures Valid(db) ==> Valid(SetSalary(db, v))
  {
    var rows := db.settings;
    var r := SetSalary(db, v).settings;
    if exists i :: 0 <= i < |rows| && rows[i].id == 1 {
      var i := FirstSalaryRow(rows);
      assert r[i].id == 1 && NoSalaryRowBefore(r, i);
    }
    if NoSalaryRowBefore(rows, |rows|) {
      assert r == rows;
    }
  }

  /** The position of the first settings row with id 1. */
  lemma {:induction false} FirstSalaryRow(rows: seq<SettingsRow>) returns (i: nat)
    requires exists i :: 0 <= i < |rows| && rows[i].id == 1
    ensures i < |rows| && rows[i].id == 1 && NoSalaryRowBefore(rows, i)
    decreases |rows|
  {
    if rows[0].id == 1 {
      i := 0;
    } else {
      var m :| 0 <= m < |rows| && rows[m].id == 1;
      assert rows[1..][m - 1].id == 1;
      var t := FirstSalaryRow(rows[1..]);
      i := t + 1;
    }
  }
}
